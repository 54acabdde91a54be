/**
 * The VatNumberValidator: validation of an Italian VAT number (partita IVA).
 *
 * A candidate passes, in this order, a null/empty short cut, a type check,
 * a length check, a character check and a mod-10 checksum; the first check
 * that fails reports its violation and ends the call. Only a candidate that
 * passes all of them is sent to the remote registry, whose reply is read
 * with a soft-fail policy.
 *
 * The registry is a parameter (a function from the query to its reply); the
 * outcome records the queries sent, the warnings raised and the violations
 * added, so that "at most one", "only after" and "never depends on" can be
 * stated about it.
 */
module VatNumberValidator {
  import opened VatNumber
  import Luhn

  /** Required number of characters. */
  const LENGTH: nat := 11

  /** Country code sent with every registry query. */
  const COUNTRY_CODE: string := "IT"

  /** Warning raised when the registry answers with an empty response. */
  const EMPTY_RESPONSE_WARNING: string := "Empty response from VAT number on-line validation service"

  /** Warning raised when the registry's response has no validity field. */
  const UNEXPECTED_RESPONSE_WARNING: string := "Unexpected response from VAT number on-line validation service"

  datatype Option<T> = None | Some(value: T)

  // ---------------------------------------------------------------------------
  // Values, registry replies and outcomes
  // ---------------------------------------------------------------------------

  /** The value handed to the validator. */
  datatype Value =
    | Null
    | Str(chars: string)
      /** An integer, float or boolean; `cast` is what a string cast makes of it (false gives ""). */
    | Scalar(cast: string)
      /** An object; `toString` is what its string conversion returns, None when it has none. */
    | Object(toString: Option<string>)
      /** An array or a resource: neither scalar nor object. */
    | Other

  /** The query sent to the registry's check-VAT operation. */
  datatype Query = CheckVat(countryCode: string, vatNumber: string)

  /** What the registry call produced. */
  datatype Reply =
    | Fault(message: string)  // the call raised a fault carrying this message
    | EmptyResponse           // the call returned an empty (false-like) response
    | MissingValid            // the response has no `valid` field
    | Answer(valid: bool)     // the response's `valid` field

  /** How a registry reply is read. */
  datatype Confirmation = Confirmed | Rejected | Indeterminate(warning: string)

  /** A violation added to the framework's context. */
  datatype Violation = Violation(message: string, code: Code, invalidValue: string)

  /** The result of one call of the validator. */
  datatype Outcome =
    | UnexpectedType(expectedType: string)
    | Completed(violations: seq<Violation>, warnings: seq<string>, queries: seq<Query>)

  /** Values that pass the type check: scalars and objects with a string conversion. */
  predicate IsStringCompatible(value: Value) {
    value.Str? || value.Scalar? || (value.Object? && value.toString.Some?)
  }

  /** The string conversion of a value that passed the type check. */
  function Cast(value: Value): string
    requires IsStringCompatible(value)
  {
    match value
    case Str(s) => s
    case Scalar(s) => s
    case Object(t) => t.value
  }

  // ---------------------------------------------------------------------------
  // Characters and digits
  // ---------------------------------------------------------------------------

  predicate IsDigit(c: char) {
    '0' <= c <= '9'
  }

  function DigitValue(c: char): int {
    c as int - '0' as int
  }

  predicate AllDigitChars(s: string) {
    forall i :: 0 <= i < |s| ==> IsDigit(s[i])
  }

  /** A non-empty string of decimal digits only (the character-class check). */
  predicate IsDigitString(s: string) {
    |s| > 0 && AllDigitChars(s)
  }

  /** The digit values of the characters of s. */
  function Digits(s: string): (ds: seq<int>)
    ensures |ds| == |s|
    ensures AllDigitChars(s) ==> Luhn.AreDigits(ds)
  {
    seq(|s|, i requires 0 <= i < |s| => DigitValue(s[i]))
  }

  /** Elements at indices 0, 2, 4, ... that have a partner after them. */
  function AtEvenIndices(ds: seq<int>): seq<int> {
    seq(|ds| / 2, k requires 0 <= k < |ds| / 2 => ds[2 * k])
  }

  /** Elements at indices 1, 3, 5, ... */
  function AtOddIndices(ds: seq<int>): seq<int> {
    seq(|ds| / 2, k requires 0 <= k < |ds| / 2 => ds[2 * k + 1])
  }

  /**
   * The matches of the pattern "two digits", scanned left to right without
   * overlap: at each position either two digits match and the scan moves past
   * them, or the scan moves on by one.
   */
  function DigitPairs(s: string): (pairs: seq<(char, char)>)
    ensures |pairs| <= |s| / 2
    ensures forall k :: 0 <= k < |pairs| ==> IsDigit(pairs[k].0) && IsDigit(pairs[k].1)
    decreases |s|
  {
    if |s| < 2 then []
    else if IsDigit(s[0]) && IsDigit(s[1]) then [(s[0], s[1])] + DigitPairs(s[2..])
    else DigitPairs(s[1..])
  }

  /** On a string of digits, the scan takes the pairs at (0,1), (2,3), ... and leaves an odd last digit alone. */
  lemma {:induction false} DigitPairsOfDigits(s: string)
    requires AllDigitChars(s)
    ensures |DigitPairs(s)| == |s| / 2
    ensures forall k :: 0 <= k < |s| / 2 ==> DigitPairs(s)[k] == (s[2 * k], s[2 * k + 1])
    decreases |s|
  {
    if |s| >= 2 {
      var rest := s[2..];
      DigitPairsOfDigits(rest);
      assert DigitPairs(s) == [(s[0], s[1])] + DigitPairs(rest);
      forall k | 0 <= k < |s| / 2
        ensures DigitPairs(s)[k] == (s[2 * k], s[2 * k + 1])
      {
        if k > 0 {
          assert DigitPairs(s)[k] == DigitPairs(rest)[k - 1];
          assert rest[2 * (k - 1)] == s[2 * k];
        }
      }
    }
  }

  /**
   * The first digit of every pair: the digits the validator calls "odd"
   * (1st, 3rd, 5th, ... counting from one).
   */
  function OddDigits(s: string): (ds: seq<int>)
    ensures |ds| <= |s| / 2 && Luhn.AreDigits(ds)
  {
    var pairs := DigitPairs(s);
    seq(|pairs|, k requires 0 <= k < |pairs| => DigitValue(pairs[k].0))
  }

  /** The second digit of every pair: the digits the validator calls "even". */
  function EvenDigits(s: string): (ds: seq<int>)
    ensures |ds| <= |s| / 2 && Luhn.AreDigits(ds)
  {
    var pairs := DigitPairs(s);
    seq(|pairs|, k requires 0 <= k < |pairs| => DigitValue(pairs[k].1))
  }

  /** On a digit string the "odd" digits sit at indices 0, 2, ... and the "even" ones at 1, 3, ... */
  lemma SplitPositions(s: string)
    requires AllDigitChars(s)
    ensures OddDigits(s) == AtEvenIndices(Digits(s))
    ensures EvenDigits(s) == AtOddIndices(Digits(s))
  {
    DigitPairsOfDigits(s);
  }

  /** The integer value of the last character: a digit's value, 0 for anything else or for "". */
  function LastDigit(s: string): (d: int)
    ensures 0 <= d <= 9
    ensures |s| > 0 && IsDigit(s[|s| - 1]) ==> d == DigitValue(s[|s| - 1])
    ensures |s| > 0 && !IsDigit(s[|s| - 1]) ==> d == 0
  {
    if |s| == 0 then 0
    else if IsDigit(s[|s| - 1]) then DigitValue(s[|s| - 1])
    else 0
  }

  // ---------------------------------------------------------------------------
  // Digit arithmetic
  // ---------------------------------------------------------------------------

  /** The sum of an integer array. */
  function Sum(xs: seq<int>): int
    decreases |xs|
  {
    if xs == [] then 0 else Sum(xs[..|xs| - 1]) + xs[|xs| - 1]
  }

  /** Every element doubled. */
  function Doubled(xs: seq<int>): seq<int> {
    seq(|xs|, i requires 0 <= i < |xs| => 2 * xs[i])
  }

  /** The number of elements that are at least 5. */
  function CountAtLeastFive(xs: seq<int>): (n: nat)
    ensures n <= |xs|
    ensures n == 0 <==> forall i :: 0 <= i < |xs| ==> xs[i] < 5
    decreases |xs|
  {
    if xs == [] then 0
    else CountAtLeastFive(xs[..|xs| - 1]) + (if xs[|xs| - 1] >= 5 then 1 else 0)
  }

  lemma {:induction false} SumOfDoubled(xs: seq<int>)
    ensures |Doubled(xs)| == |xs|
    ensures Sum(Doubled(xs)) == 2 * Sum(xs)
    decreases |xs|
  {
    if xs != [] {
      var init := xs[..|xs| - 1];
      assert Doubled(xs)[..|xs| - 1] == Doubled(init);
      SumOfDoubled(init);
    }
  }

  /** Doubles each element of a copy of the array, one element at a time. */
  method DoubleDigits(digits: seq<int>) returns (doubled: seq<int>)
    ensures |doubled| == |digits|
    ensures forall i :: 0 <= i < |digits| ==> doubled[i] == 2 * digits[i]
    ensures doubled == Doubled(digits)
  {
    doubled := digits;
    var i := 0;
    while i < |doubled|
      invariant 0 <= i <= |doubled| == |digits|
      invariant forall j :: 0 <= j < i ==> doubled[j] == 2 * digits[j]
      invariant forall j :: i <= j < |doubled| ==> doubled[j] == digits[j]
    {
      doubled := doubled[i := doubled[i] * 2];
      i := i + 1;
    }
  }

  /** Counts the elements that are at least 5. */
  method CountDigits(digits: seq<int>) returns (count: nat)
    ensures count == CountAtLeastFive(digits)
    ensures count <= |digits|
  {
    count := 0;
    var i := 0;
    while i < |digits|
      invariant 0 <= i <= |digits|
      invariant count == CountAtLeastFive(digits[..i])
    {
      assert digits[..i + 1][..i] == digits[..i];
      if digits[i] >= 5 {
        count := count + 1;
      }
      i := i + 1;
    }
    assert digits[..|digits|] == digits;
  }

  // ---------------------------------------------------------------------------
  // The check digit
  // ---------------------------------------------------------------------------

  /**
   * The check digit computed from the pairs of a candidate: the "odd" digits,
   * the doubled "even" digits and one carry for each "even" digit of 5 or more.
   */
  function Checksum(s: string): (c: int)
    ensures 0 <= c <= 9
  {
    var even := EvenDigits(s);
    var odd := OddDigits(s);
    var total := Sum(odd) + Sum(Doubled(even)) + CountAtLeastFive(even);
    (10 - total % 10) % 10
  }

  lemma SumSnoc(xs: seq<int>, x: int)
    ensures Sum(xs + [x]) == Sum(xs) + x
  {
  }

  lemma CountSnoc(xs: seq<int>, x: int)
    ensures CountAtLeastFive(xs + [x]) == CountAtLeastFive(xs) + (if x >= 5 then 1 else 0)
  {
  }

  /** Appending a pair appends one element to each half. */
  lemma SplitSnoc(pre: seq<int>, a: int, b: int)
    requires |pre| % 2 == 0
    ensures AtEvenIndices(pre + [a, b]) == AtEvenIndices(pre) + [a]
    ensures AtOddIndices(pre + [a, b]) == AtOddIndices(pre) + [b]
  {
  }

  /**
   * Counting carries is the digit-sum-of-the-doubled-digit step of the Luhn
   * scheme: on an even-length digit string, whose last digit is doubled, the
   * Luhn weighted sum equals the validator's total less ten per carry.
   */
  lemma {:induction false} CarryCountIsLuhn(ds: seq<int>)
    requires |ds| % 2 == 0
    ensures Luhn.WeightedSum(ds, true)
            == Sum(AtEvenIndices(ds)) + Sum(Doubled(AtOddIndices(ds))) + CountAtLeastFive(AtOddIndices(ds))
               - 10 * CountAtLeastFive(AtOddIndices(ds))
    decreases |ds|
  {
    if ds != [] {
      var n := |ds|;
      var pre := ds[..n - 2];
      var a, b := ds[n - 2], ds[n - 1];
      assert ds == pre + [a, b];
      CarryCountIsLuhn(pre);
      assert ds[..n - 1][..n - 2] == pre;
      assert Luhn.WeightedSum(ds, true) == Luhn.WeightedSum(pre, true) + a + Luhn.DoubleDigit(b);
      SplitSnoc(pre, a, b);
      var odds := AtOddIndices(pre);
      assert Doubled(odds + [b]) == Doubled(odds) + [2 * b];
      SumSnoc(AtEvenIndices(pre), a);
      SumSnoc(Doubled(odds), 2 * b);
      CountSnoc(odds, b);
    }
  }

  /** On 11 digits, the Luhn weighted sum is the validator's total less ten per carry, plus the last digit. */
  lemma WeightedSumOfEleven(s: string)
    requires |s| == LENGTH && AllDigitChars(s)
    ensures var z := CountAtLeastFive(EvenDigits(s));
            Luhn.WeightedSum(Digits(s), false)
            == Sum(OddDigits(s)) + Sum(Doubled(EvenDigits(s))) + z - 10 * z + LastDigit(s)
  {
    var ds := Digits(s);
    var first10 := ds[..10];
    SplitPositions(s);
    assert AtEvenIndices(ds) == AtEvenIndices(first10);
    assert AtOddIndices(ds) == AtOddIndices(first10);
    CarryCountIsLuhn(first10);
    assert ds[..|ds| - 1] == first10;
  }

  /** The check digit of a total matches a digit d exactly when total, less ten per carry, plus d is a multiple of 10. */
  lemma CheckDigitMod(total: int, z: int, d: int)
    requires 0 <= d <= 9
    ensures (10 - total % 10) % 10 == d <==> (total - 10 * z + d) % 10 == 0
  {
  }

  /**
   * On an 11-digit candidate the computed check digit equals the last digit
   * exactly when the whole number is valid under the Luhn scheme.
   */
  lemma ChecksumIsLuhn(s: string)
    requires |s| == LENGTH && AllDigitChars(s)
    ensures Checksum(s) == LastDigit(s) <==> Luhn.IsValid(Digits(s))
  {
    WeightedSumOfEleven(s);
    var z := CountAtLeastFive(EvenDigits(s));
    CheckDigitMod(Sum(OddDigits(s)) + Sum(Doubled(EvenDigits(s))) + z, z, LastDigit(s));
  }

  /**
   * Computes the check digit step by step from the pairs of the candidate and
   * compares it with the last digit.
   */
  method ChecksumMatches(value: string) returns (matches: bool)
    ensures matches <==> LastDigit(value) == Checksum(value)
    ensures |value| == LENGTH && AllDigitChars(value) ==> (matches <==> Luhn.IsValid(Digits(value)))
  {
    var even := EvenDigits(value);
    var odd := OddDigits(value);
    var doubledEven := DoubleDigits(even);
    var lastDigit := LastDigit(value);
    var x := Sum(odd);
    var y := Sum(doubledEven);
    var z := CountDigits(even);
    var t := (x + y + z) % 10;
    var c := (10 - t) % 10;
    matches := lastDigit == c;
    if |value| == LENGTH && AllDigitChars(value) {
      ChecksumIsLuhn(value);
    }
  }

  /** The check digit depends on the first ten digits only. */
  lemma CheckDigitOfPrefix(prefix: string, c: char, c': char)
    requires |prefix| == LENGTH - 1 && AllDigitChars(prefix) && IsDigit(c) && IsDigit(c')
    ensures Checksum(prefix + [c]) == Checksum(prefix + [c'])
  {
    var s, s' := prefix + [c], prefix + [c'];
    assert AllDigitChars(s) && AllDigitChars(s');
    SplitPositions(s);
    SplitPositions(s');
    var ds, ds' := Digits(s), Digits(s');
    assert forall i :: 0 <= i < 10 ==> ds[i] == ds'[i];
    assert AtEvenIndices(ds) == AtEvenIndices(ds');
    assert AtOddIndices(ds) == AtOddIndices(ds');
    assert OddDigits(s) == OddDigits(s') && EvenDigits(s) == EvenDigits(s');
  }

  /** Of the ten digits that can end a ten-digit prefix, exactly the computed check digit passes. */
  lemma CheckDigitCompletesPrefix(prefix: string, c: char)
    requires |prefix| == LENGTH - 1 && AllDigitChars(prefix) && IsDigit(c)
    ensures Luhn.IsValid(Digits(prefix + [c])) <==> DigitValue(c) == Checksum(prefix + ['0'])
  {
    var s := prefix + [c];
    assert AllDigitChars(s);
    ChecksumIsLuhn(s);
    CheckDigitOfPrefix(prefix, c, '0');
    assert LastDigit(s) == DigitValue(c);
  }

  // ---------------------------------------------------------------------------
  // The local checks
  // ---------------------------------------------------------------------------

  /** A candidate that passes every local check. */
  predicate IsWellFormed(s: string) {
    |s| == LENGTH && AllDigitChars(s) && Luhn.IsValid(Digits(s))
  }

  /** The length, character and checksum checks, in order; the first failure is reported. */
  function StructuralCheck(s: string): (r: Option<Code>)
    ensures r == Some(TooShortError) <==> |s| < LENGTH
    ensures r == Some(TooLongError) <==> |s| > LENGTH
    ensures r == Some(InvalidCharactersError) <==> |s| == LENGTH && !AllDigitChars(s)
    ensures r == Some(ChecksumFailedError) <==> |s| == LENGTH && AllDigitChars(s) && !Luhn.IsValid(Digits(s))
    ensures r == None <==> IsWellFormed(s)
    ensures r.Some? ==> IsStructural(r.value)
  {
    if |s| < LENGTH then Some(TooShortError)
    else if |s| > LENGTH then Some(TooLongError)
    else if !IsDigitString(s) then Some(InvalidCharactersError)
    else if LastDigit(s) != Checksum(s) then (ChecksumIsLuhn(s); Some(ChecksumFailedError))
    else (ChecksumIsLuhn(s); None)
  }

  /** A structurally valid candidate whose one digit is replaced by another digit fails the checksum. */
  lemma SingleDigitErrorIsCaught(s: string, i: nat, c: char)
    requires IsWellFormed(s)
    requires i < |s| && IsDigit(c) && c != s[i]
    ensures StructuralCheck(s[i := c]) == Some(ChecksumFailedError)
  {
    var s' := s[i := c];
    assert Digits(s') == Digits(s)[i := DigitValue(c)];
    Luhn.DetectsSingleSubstitution(Digits(s), i, DigitValue(c));
  }

  // ---------------------------------------------------------------------------
  // The remote registry
  // ---------------------------------------------------------------------------

  /** The soft-fail reading of a registry reply. */
  function InterpretReply(reply: Reply): (r: Confirmation)
    ensures r == Rejected <==> reply == Answer(false)
    ensures r == Confirmed <==> reply == Answer(true)
    ensures reply.Fault? ==> r == Indeterminate(reply.message)
    ensures reply == EmptyResponse ==> r == Indeterminate(EMPTY_RESPONSE_WARNING)
    ensures reply == MissingValid ==> r == Indeterminate(UNEXPECTED_RESPONSE_WARNING)
  {
    match reply
    case Fault(message) => Indeterminate(message)
    case EmptyResponse => Indeterminate(EMPTY_RESPONSE_WARNING)
    case MissingValid => Indeterminate(UNEXPECTED_RESPONSE_WARNING)
    case Answer(valid) => if valid then Confirmed else Rejected
  }

  // ---------------------------------------------------------------------------
  // The pipeline
  // ---------------------------------------------------------------------------

  /** The outcome of a call that adds no violation, raises no warning and sends no query. */
  function NoViolation(): Outcome {
    Completed([], [], [])
  }

  /**
   * Validates `value`; `message` is the constraint's message and `registry`
   * answers the one check-VAT query the validator may send.
   */
  function Validate(value: Value, message: string, registry: Query -> Reply): (r: Outcome)
    // null and "" need no checking
    ensures value == Null || value == Str("") ==> r == NoViolation()
    // only values that are neither scalar nor convertible to a string raise the type error
    ensures r.UnexpectedType? <==> value != Null && !IsStringCompatible(value)
    ensures r.UnexpectedType? ==> r.expectedType == "string"
    // at most one violation, at most one warning, at most one query, never a violation and a warning together
    ensures r.Completed? ==> |r.violations| <= 1 && |r.warnings| <= 1 && |r.queries| <= 1
    ensures r.Completed? ==> r.violations == [] || r.warnings == []
    // a failed local check is reported alone, with no query sent
    ensures IsStringCompatible(value) && value != Str("") && StructuralCheck(Cast(value)).Some?
            ==> r == Completed([Violation(message, StructuralCheck(Cast(value)).value, Cast(value))], [], [])
    // the registry is asked exactly when every local check passed, with the configured country code
    ensures r.Completed? && r.queries != [] <==> IsStringCompatible(value) && value != Str("") && IsWellFormed(Cast(value))
    ensures r.Completed? && r.queries != [] ==> r.queries == [CheckVat(COUNTRY_CODE, Cast(value))]
    // and its reply decides: rejection is a violation, an indeterminate reply only a warning
    ensures r.Completed? && r.queries != [] ==>
              (r.violations != [] <==> registry(r.queries[0]) == Answer(false))
              && (r.violations != [] ==> r.violations == [Violation(message, OnlineValidationFailedError, Cast(value))])
              && (r.warnings != [] <==> InterpretReply(registry(r.queries[0])).Indeterminate?)
              && (r.warnings != [] ==> r.warnings == [InterpretReply(registry(r.queries[0])).warning])
  {
    if value == Null || value == Str("") then NoViolation()
    else if !IsStringCompatible(value) then UnexpectedType("string")
    else
      var s := Cast(value);
      match StructuralCheck(s)
      case Some(code) => Completed([Violation(message, code, s)], [], [])
      case None =>
        var query := CheckVat(COUNTRY_CODE, s);
        match InterpretReply(registry(query))
        case Confirmed => Completed([], [], [query])
        case Rejected => Completed([Violation(message, OnlineValidationFailedError, s)], [], [query])
        case Indeterminate(warning) => Completed([], [warning], [query])
  }

  /** When a local check fails, the outcome is the same whatever the registry would answer. */
  lemma StructuralOutcomeIgnoresRegistry(value: Value, message: string, registry: Query -> Reply, registry': Query -> Reply)
    requires IsStringCompatible(value) && value != Str("")
    requires !IsWellFormed(Cast(value))
    ensures Validate(value, message, registry) == Validate(value, message, registry')
    ensures Validate(value, message, registry).queries == []
  {
  }

  /**
   * Soft fail: a fault, an empty response and a response without a validity
   * field all lead, like a confirmation, to no violation; they differ from it
   * only in the one warning they raise.
   */
  lemma IndeterminateReplyIsNoViolation(s: string, message: string, registry: Query -> Reply, registry': Query -> Reply)
    requires IsWellFormed(s)
    requires InterpretReply(registry(CheckVat(COUNTRY_CODE, s))).Indeterminate?
    requires registry'(CheckVat(COUNTRY_CODE, s)) == Answer(true)
    ensures Validate(Str(s), message, registry).violations == []
    ensures |Validate(Str(s), message, registry).warnings| == 1
    ensures Validate(Str(s), message, registry).queries == Validate(Str(s), message, registry').queries
    ensures Validate(Str(s), message, registry') == Completed([], [], [CheckVat(COUNTRY_CODE, s)])
  {
  }
}

/**
 * The cases of the validator's test suite, stated as lemmas about the model.
 * The registry is a parameter here, so the case that depends on the live
 * service is stated for a registry that rejects the number.
 */
module VatNumberTest {
  import opened VatNumber
  import opened VatNumberValidator

  /** A registry that confirms every number. */
  function ConfirmAll(q: Query): Reply {
    Answer(true)
  }

  /** A registry that rejects every number. */
  function RejectAll(q: Query): Reply {
    Answer(false)
  }

  /** A registry whose every call raises a fault. */
  function Unreachable(q: Query): Reply {
    Fault("Could not connect to host")
  }

  /** The pairs and the last digit of an 11-digit literal, read off its digit values. */
  lemma DigitsOf(s: string, ds: seq<int>)
    requires |s| == LENGTH && |ds| == LENGTH
    requires forall i :: 0 <= i < |s| ==> IsDigit(s[i]) && DigitValue(s[i]) == ds[i]
    ensures AllDigitChars(s) && Digits(s) == ds
    ensures OddDigits(s) == [ds[0], ds[2], ds[4], ds[6], ds[8]]
    ensures EvenDigits(s) == [ds[1], ds[3], ds[5], ds[7], ds[9]]
    ensures LastDigit(s) == ds[10]
  {
    SplitPositions(s);
  }

  function IfAtLeastFive(d: int): int {
    if d >= 5 then 1 else 0
  }

  /** The sums and the count the check digit needs, for five digits. */
  lemma SumsOfFive(a: int, b: int, c: int, d: int, e: int)
    ensures Sum([a, b, c, d, e]) == a + b + c + d + e
    ensures Sum(Doubled([a, b, c, d, e])) == 2 * (a + b + c + d + e)
    ensures CountAtLeastFive([a, b, c, d, e])
            == IfAtLeastFive(a) + IfAtLeastFive(b) + IfAtLeastFive(c) + IfAtLeastFive(d) + IfAtLeastFive(e)
  {
    var xs := [a, b, c, d, e];
    assert xs[..4] == [a, b, c, d];
    assert [a, b, c, d][..3] == [a, b, c];
    assert [a, b, c][..2] == [a, b];
    assert [a, b][..1] == [a];
    assert Sum([a]) == a;
    assert Sum([a, b]) == a + b;
    assert Sum([a, b, c]) == a + b + c;
    assert Sum([a, b, c, d]) == a + b + c + d;
    assert CountAtLeastFive([a]) == IfAtLeastFive(a);
    assert CountAtLeastFive([a, b]) == IfAtLeastFive(a) + IfAtLeastFive(b);
    assert CountAtLeastFive([a, b, c]) == IfAtLeastFive(a) + IfAtLeastFive(b) + IfAtLeastFive(c);
    assert CountAtLeastFive([a, b, c, d])
           == IfAtLeastFive(a) + IfAtLeastFive(b) + IfAtLeastFive(c) + IfAtLeastFive(d);
    SumOfDoubled(xs);
  }

  lemma NullIsValid(registry: Query -> Reply)
    ensures Validate(Null, DEFAULT_MESSAGE, registry) == Completed([], [], [])
  {
  }

  lemma EmptyStringIsValid(registry: Query -> Reply)
    ensures Validate(Str(""), DEFAULT_MESSAGE, registry) == Completed([], [], [])
  {
  }

  /** An object without a string conversion is a type error, not a violation. */
  lemma ExpectsStringCompatibleType(registry: Query -> Reply)
    ensures Validate(Object(None), DEFAULT_MESSAGE, registry) == UnexpectedType("string")
  {
  }

  /** The check digit of "0174303030_" is 4. */
  lemma CheckDigitOfValidExample(s: string)
    requires s == "01743030304"
    ensures AllDigitChars(s) && LastDigit(s) == 4
    ensures Checksum(s) == 4
  {
    DigitsOf(s, [0, 1, 7, 4, 3, 0, 3, 0, 3, 0, 4]);
    SumsOfFive(0, 7, 3, 3, 3);
    SumsOfFive(1, 4, 0, 0, 0);
  }

  /** "01743030304" passes every local check: its check digit is 4. */
  lemma ValidVatNumberIsWellFormed()
    ensures Checksum("01743030304") == 4
    ensures IsWellFormed("01743030304")
  {
    CheckDigitOfValidExample("01743030304");
    ChecksumIsLuhn("01743030304");
  }

  /** "01743030304" is sent to the registry; confirmed or unreachable, it gives no violation. */
  lemma ValidVatNumber()
    ensures Validate(Str("01743030304"), DEFAULT_MESSAGE, ConfirmAll)
            == Completed([], [], [CheckVat("IT", "01743030304")])
    ensures Validate(Str("01743030304"), DEFAULT_MESSAGE, Unreachable)
            == Completed([], ["Could not connect to host"], [CheckVat("IT", "01743030304")])
  {
    var s := "01743030304";
    CheckDigitOfValidExample(s);
    assert StructuralCheck(s) == None;
  }

  lemma TooShort(message: string, registry: Query -> Reply)
    ensures Validate(Str("1234567890"), message, registry)
            == Completed([Violation(message, TooShortError, "1234567890")], [], [])
  {
  }

  lemma TooLong(message: string, registry: Query -> Reply)
    ensures Validate(Str("123456789012"), message, registry)
            == Completed([Violation(message, TooLongError, "123456789012")], [], [])
  {
  }

  lemma InvalidCharacters(message: string, registry: Query -> Reply)
    ensures Validate(Str("abcde123456"), message, registry)
            == Completed([Violation(message, InvalidCharactersError, "abcde123456")], [], [])
  {
    assert !IsDigit("abcde123456"[0]);
  }

  /** The check digit of "1234567890_" is 3, whatever the eleventh digit. */
  lemma CheckDigitOfSequence(s: string, last: int)
    requires 0 <= last <= 9 && s == "1234567890" + [(48 + last) as char]
    ensures AllDigitChars(s) && LastDigit(s) == last
    ensures Checksum(s) == 3
  {
    DigitsOf(s, [1, 2, 3, 4, 5, 6, 7, 8, 9, 0, last]);
    SumsOfFive(1, 3, 5, 7, 9);
    SumsOfFive(2, 4, 6, 8, 0);
  }

  /** The computed check digit of "1234567890_" is 3, so a final 1 fails. */
  lemma ChecksumFailed(message: string, registry: Query -> Reply)
    ensures Validate(Str("12345678901"), message, registry)
            == Completed([Violation(message, ChecksumFailedError, "12345678901")], [], [])
  {
    CheckDigitOfSequence("12345678901", 1);
  }

  /** "12345678903" passes the checksum; a registry that rejects it makes it a violation. */
  lemma OnlineValidationFailed(message: string)
    ensures Validate(Str("12345678903"), message, RejectAll)
            == Completed([Violation(message, OnlineValidationFailedError, "12345678903")], [], [CheckVat("IT", "12345678903")])
  {
    CheckDigitOfSequence("12345678903", 3);
    assert StructuralCheck("12345678903") == None;
  }

  /** false converts to "", but only the string "" is exempt: false is too short. */
  lemma FalseIsTooShort(message: string, registry: Query -> Reply)
    ensures Validate(Scalar(""), message, registry)
            == Completed([Violation(message, TooShortError, "")], [], [])
  {
  }
}

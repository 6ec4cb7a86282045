/**
 * The frontend's phone helpers. Its isVietnamesePhoneNumber is the same
 * anchored pattern as the backend's, so Phone.IsVietnamesePhoneNumber
 * stands for both.
 */
module PhoneFormat {
  import opened Json
  import opened Strings
  import opened Phone

  const PhoneRequired := "Phone number is required"
  const InvalidPhone := "Invalid phone number"
  const PhonesRequired := "Phone numbers are required"

  /** formatPhoneNumber: the number with the white space at both ends cut
      off, and nothing else changed. */
  function FormatPhoneNumber(number: string): (r: string)
    ensures exists i: nat :: SliceWithinSpace(number, r, i, IsJsSpace)
    ensures r == [] || (!IsJsSpace(r[0]) && !IsJsSpace(r[|r| - 1]))
    ensures JsTrim(r) == r
  {
    TrimEndsNonSpace(number, IsJsSpace);
    TrimIdempotent(number, IsJsSpace);
    TrimIsSliceWithinSpace(number, IsJsSpace);
    JsTrim(number)
  }

  /** validatePhoneNumber. */
  function ValidatePhoneNumber(number: Value): (r: string)
    ensures r == PhoneRequired <==> !JsTruthy(number)
    ensures r == InvalidPhone <==> JsTruthy(number) && !IsVietnamesePhoneNumber(number)
    ensures r == "" <==> IsVietnamesePhoneNumber(number)
  {
    if !JsTruthy(number) then PhoneRequired
    else if !IsVietnamesePhoneNumber(number) then InvalidPhone
    else ""
  }

  /** A number with a leading space is refused until formatPhoneNumber has
      trimmed it. */
  lemma PaddedNumberNeedsFormatting(number: string)
    requires PhonePattern(number)
    ensures ValidatePhoneNumber(Str(" " + number)) == InvalidPhone
    ensures ValidatePhoneNumber(Str(FormatPhoneNumber(" " + number))) == ""
  {
    assert (" " + number)[0] == ' ';
    OnlyDigitsAccepted(" " + number, ' ');
    PhoneCharacterization(number);
    LeadingSpaceTrimmed(number);
  }

  lemma LeadingSpaceTrimmed(n: string)
    requires n != [] && !IsJsSpace(n[0]) && !IsJsSpace(n[|n| - 1])
    ensures JsTrim(" " + n) == n
  {
    var s := " " + n;
    assert s[1..] == n;
    assert TrimStart(s, IsJsSpace) == TrimStart(n, IsJsSpace);
    assert TrimStart(n, IsJsSpace) == n;
    assert TrimEnd(n, IsJsSpace) == n;
  }

  /** validatePhoneNumbers: the loop stops at the first number that fails. */
  method ValidatePhoneNumbers(numbers: seq<Value>) returns (r: string)
    ensures r == PhonesRequired <==> |numbers| == 0
    ensures r == InvalidPhone <==> exists i :: 0 <= i < |numbers| && !IsVietnamesePhoneNumber(numbers[i])
    ensures r == "" <==> |numbers| > 0 && forall i :: 0 <= i < |numbers| ==> IsVietnamesePhoneNumber(numbers[i])
  {
    if |numbers| == 0 {
      return PhonesRequired;
    }
    for i := 0 to |numbers|
      invariant forall k :: 0 <= k < i ==> IsVietnamesePhoneNumber(numbers[k])
    {
      if !IsVietnamesePhoneNumber(numbers[i]) {
        return InvalidPhone;
      }
    }
    r := "";
  }
}

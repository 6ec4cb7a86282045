/**
 * The server's password strength check (minimum length 5).
 */
module BackendPassword {
  import opened Wrappers
  import opened PasswordRules

  /** PasswordCheckService.MinimumLength. */
  const MinimumLength := 5

  /** checkPasswordStrength: the element count is built by four successive
      reassignments, then the strength is chosen. A null password is Short;
      an undefined one makes `password.length` throw a TypeError. */
  method CheckPasswordStrength(password: Input) returns (r: Result<Strength, string>)
    ensures password.Null? ==> r == Result.Ok(Short)
    ensures password.Undefined? ==> r.Err?
    ensures password.Text? ==> r == Result.Ok(Rate(password.s, MinimumLength))
    ensures r.Ok? && Code(r.value) >= 2 ==> password.Text? && |password.s| >= MinimumLength && !IsCommon(password.s)
  {
    var tested := TestedString(password);
    var numberOfElements := 0;
    numberOfElements := if HasClass(tested, LowerCase) then numberOfElements + 1 else numberOfElements;
    numberOfElements := if HasClass(tested, UpperCase) then numberOfElements + 1 else numberOfElements;
    numberOfElements := if HasClass(tested, Number) then numberOfElements + 1 else numberOfElements;
    numberOfElements := if HasClass(tested, Special) then numberOfElements + 1 else numberOfElements;
    assert numberOfElements == ElementCount(tested);
    var currentPasswordStrength := Short;
    if password.Null? {
      currentPasswordStrength := Short;
    } else if password.Undefined? {
      return Result.Err("TypeError: Cannot read properties of undefined (reading 'length')");
    } else if |password.s| < MinimumLength {
      currentPasswordStrength := Short;
    } else if IsCommon(password.s) {
      currentPasswordStrength := Common;
    } else if numberOfElements == 0 || numberOfElements == 1 || numberOfElements == 2 {
      currentPasswordStrength := Weak;
    } else if numberOfElements == 3 {
      currentPasswordStrength := Strength.Ok;
    } else {
      currentPasswordStrength := Strong;
    }
    r := Result.Ok(currentPasswordStrength);
  }

  /** statePassword: a fresh service's checkPasswordStrength. */
  method StatePassword(password: Input) returns (r: Result<Strength, string>)
    ensures password.Text? ==> r == Result.Ok(Rate(password.s, MinimumLength))
    ensures password.Null? ==> r == Result.Ok(Short)
    ensures password.Undefined? ==> r.Err?
  {
    r := CheckPasswordStrength(password);
  }
}

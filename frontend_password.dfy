/**
 * The browser's password strength check (minimum length 8).
 */
module FrontendPassword {
  import opened PasswordRules

  /** PasswordCheckService.MINIMUM_LENGTH. */
  const MinimumLength := 8

  /** countPasswordElements: one increment per class test that succeeds. */
  method CountPasswordElements(password: string) returns (count: nat)
    ensures count == |Classes(password)| <= 4
  {
    count := 0;
    if HasClass(password, LowerCase) { count := count + 1; }
    if HasClass(password, UpperCase) { count := count + 1; }
    if HasClass(password, Number) { count := count + 1; }
    if HasClass(password, Special) { count := count + 1; }
    ElementCountIsClassCount(password);
  }

  /** checkPasswordStrength: a falsy or short password is Short, then the
      common test, then a switch on the element count whose default (never
      reached) is Weak. */
  method CheckPasswordStrength(password: Input) returns (s: Strength)
    ensures !password.Text? || |password.s| < MinimumLength ==> s == Short
    ensures password.Text? ==> s == Rate(password.s, MinimumLength)
  {
    if !password.Text? || password.s == "" || |password.s| < MinimumLength {
      return Short;
    }
    if IsCommon(password.s) {
      return Common;
    }
    var elementCount := CountPasswordElements(password.s);
    ElementCountIsClassCount(password.s);
    if elementCount == 0 || elementCount == 1 || elementCount == 2 {
      s := Weak;
    } else if elementCount == 3 {
      s := Ok;
    } else if elementCount == 4 {
      s := Strong;
    } else {
      s := Weak;
    }
  }

  /** getPasswordStrength. */
  method GetPasswordStrength(password: Input) returns (s: Strength)
    ensures password.Text? ==> s == Rate(password.s, MinimumLength)
    ensures !password.Text? ==> s == Short
  {
    s := CheckPasswordStrength(password);
  }
}

/**
 * The password-strength rules shared by the server and the browser: the
 * strength scale, the common-password pattern and the four character
 * classes. Only the minimum length differs between the two checkers.
 */
module PasswordRules {
  import opened Strings

  /** A password argument as JavaScript can pass it. */
  datatype Input = Null | Undefined | Text(s: string)

  /** The string a regular expression's test() sees for the argument. */
  function TestedString(password: Input): string {
    match password
    case Null => "null"
    case Undefined => "undefined"
    case Text(s) => s
  }

  /** PasswordCheckStrength / PasswordStrength, in the order of their codes 0..4. */
  datatype Strength = Short | Common | Weak | Ok | Strong

  function Code(s: Strength): (c: nat)
    ensures c <= 4
  {
    match s
    case Short => 0
    case Common => 1
    case Weak => 2
    case Ok => 3
    case Strong => 4
  }

  lemma CodesDistinct(a: Strength, b: Strength)
    ensures Code(a) == Code(b) <==> a == b
  {
  }

  /** The alternatives of the common-password regular expression; each ends
      in `.*` and the expression is not anchored, so a password is common as
      soon as one of them occurs anywhere in it. */
  const CommonPatterns: seq<string> :=
    ["passw", "12345", "09876", "qwert", "asdfg", "zxcvb", "footb", "baseb", "drago"]

  /** isPasswordCommon. */
  predicate IsCommon(p: string) {
    exists k :: 0 <= k < |CommonPatterns| && Contains(p, CommonPatterns[k])
  }

  /** The four character classes the strength counts. */
  datatype CharClass = LowerCase | UpperCase | Number | Special

  /** The class of one character; [^a-zA-Z0-9] is everything else, non-ASCII
      letters included. */
  function ClassOf(c: char): CharClass {
    if 'a' <= c <= 'z' then LowerCase
    else if 'A' <= c <= 'Z' then UpperCase
    else if '0' <= c <= '9' then Number
    else Special
  }

  /** Whether /[...]/.test(p) succeeds for the class's character set. */
  predicate HasClass(p: string, cl: CharClass) {
    exists i :: 0 <= i < |p| && ClassOf(p[i]) == cl
  }

  /** The classes present in p. */
  function Classes(p: string): set<CharClass> {
    set i | 0 <= i < |p| :: ClassOf(p[i])
  }

  function Indicator(b: bool): nat {
    if b then 1 else 0
  }

  /** The element count: one for each of the four tests that succeeds. */
  function ElementCount(p: string): nat {
    Indicator(HasClass(p, LowerCase)) + Indicator(HasClass(p, UpperCase)) +
    Indicator(HasClass(p, Number)) + Indicator(HasClass(p, Special))
  }

  /** A class is among Classes(p) exactly when its test succeeds. */
  lemma ClassesMembers(p: string, c: CharClass)
    ensures c in Classes(p) <==> HasClass(p, c)
  {
    if HasClass(p, c) {
      var i :| 0 <= i < |p| && ClassOf(p[i]) == c;
      assert ClassOf(p[i]) in Classes(p);
    }
  }

  /** The element count is the number of distinct classes present, so at most four. */
  lemma ElementCountIsClassCount(p: string)
    ensures ElementCount(p) == |Classes(p)| <= 4
  {
    var bl, bu, bn, bs := HasClass(p, LowerCase), HasClass(p, UpperCase), HasClass(p, Number), HasClass(p, Special);
    forall c: CharClass
      ensures c in Classes(p) <==> (c == LowerCase && bl) || (c == UpperCase && bu) || (c == Number && bn) || (c == Special && bs)
    {
      ClassesMembers(p, c);
    }
    FlagSetSize(Classes(p), bl, bu, bn, bs);
  }

  /** A set of classes given by four membership flags has one element per set flag. */
  lemma FlagSetSize(cs: set<CharClass>, bl: bool, bu: bool, bn: bool, bs: bool)
    requires forall c: CharClass :: c in cs <==> (c == LowerCase && bl) || (c == UpperCase && bu) || (c == Number && bn) || (c == Special && bs)
    ensures |cs| == Indicator(bl) + Indicator(bu) + Indicator(bn) + Indicator(bs) <= 4
  {
    var c1 := cs - {LowerCase};
    var c2 := c1 - {UpperCase};
    var c3 := c2 - {Number};
    var c4 := c3 - {Special};
    RemoveOne(cs, LowerCase);
    RemoveOne(c1, UpperCase);
    RemoveOne(c2, Number);
    RemoveOne(c3, Special);
    forall c | c in c4 ensures false {
    }
    assert c4 == {};
  }

  lemma RemoveOne(cs: set<CharClass>, x: CharClass)
    ensures |cs| == |cs - {x}| + Indicator(x in cs)
  {
    if x !in cs {
      assert cs - {x} == cs;
    }
  }

  /** The strength of a password of at least the minimum length: common
      first, then two or fewer classes weak, three ok, four strong. */
  function Rate(p: string, minimumLength: nat): (s: Strength)
    ensures s == Short <==> |p| < minimumLength
    ensures s == Common <==> |p| >= minimumLength && IsCommon(p)
    ensures s in {Weak, Ok, Strong} ==> |p| >= minimumLength && !IsCommon(p) && Code(s) == (if ElementCount(p) <= 2 then 2 else ElementCount(p))
  {
    ElementCountIsClassCount(p);
    if |p| < minimumLength then Short
    else if IsCommon(p) then Common
    else if ElementCount(p) <= 2 then Weak
    else if ElementCount(p) == 3 then Ok
    else Strong
  }

  /** A common pattern outranks every character mix. */
  lemma CommonRegardlessOfMix(p: string, minimumLength: nat)
    requires |p| >= minimumLength
    requires exists k :: 0 <= k < |CommonPatterns| && Contains(p, CommonPatterns[k])
    ensures Rate(p, minimumLength) == Common
  {
  }

  /** A strong password has all four classes. */
  lemma StrongHasAllClasses(p: string, minimumLength: nat)
    requires Rate(p, minimumLength) == Strong
    ensures Classes(p) == {LowerCase, UpperCase, Number, Special}
  {
    ElementCountIsClassCount(p);
    assert HasClass(p, LowerCase) && HasClass(p, UpperCase) && HasClass(p, Number) && HasClass(p, Special);
    var i0 :| 0 <= i0 < |p| && ClassOf(p[i0]) == LowerCase;
    var i1 :| 0 <= i1 < |p| && ClassOf(p[i1]) == UpperCase;
    var i2 :| 0 <= i2 < |p| && ClassOf(p[i2]) == Number;
    var i3 :| 0 <= i3 < |p| && ClassOf(p[i3]) == Special;
    assert {LowerCase, UpperCase, Number, Special} <= Classes(p);
    forall c | c in Classes(p) ensures c in {LowerCase, UpperCase, Number, Special} {
    }
  }

  /** Two minimum lengths give the same strength to a password long enough
      for both, and the larger one only turns more passwords Short. */
  lemma MinimumLengthOnlyAddsShort(p: string, lower: nat, higher: nat)
    requires lower <= higher
    ensures |p| >= higher ==> Rate(p, lower) == Rate(p, higher)
    ensures lower <= |p| < higher ==> Rate(p, higher) == Short && Rate(p, lower) != Short
    ensures |p| < lower ==> Rate(p, lower) == Rate(p, higher) == Short
  {
  }
}

/**
 * The backend's format checks: the Vietnamese phone number pattern and the
 * day/month/year date check. Date.parse and parseInt are parameters; NaN
 * from parseInt is None.
 */
module Phone {
  import opened Wrappers
  import opened Json
  import opened Strings

  predicate AllDigits(s: string) {
    forall i :: 0 <= i < |s| ==> IsDigit(s[i])
  }

  const TwoDigitPrefixes: seq<string> := ["03", "05", "07", "08", "09"]
  const ThreeDigitPrefixes: seq<string> := ["012", "016", "018", "019"]

  /** `/^(03|05|07|08|09|01[2689])\d{8}$/`: one of the prefixes, then exactly
      eight digits, and nothing else. */
  predicate PhonePattern(s: string) {
    (|s| == 10 && s[..2] in TwoDigitPrefixes && AllDigits(s[2..])) ||
    (|s| == 11 && s[..3] in ThreeDigitPrefixes && AllDigits(s[3..]))
  }

  /** isVietnamesePhoneNumber: false for anything that is not a string;
      a string passes when it is ten digits 0[35789]... or eleven digits
      01[2689]... */
  function IsVietnamesePhoneNumber(v: Value): (b: bool)
    ensures b <==> v.Str? && (|v.s| == 10 || |v.s| == 11) && AllDigits(v.s) && v.s[0] == '0' &&
                   (if |v.s| == 10 then v.s[1] in "35789" else v.s[1] == '1' && v.s[2] in "2689")
  {
    if v.Str? then
      PhoneCharacterization(v.s);
      PhonePattern(v.s)
    else false
  }

  /** The pattern, character by character: ten or eleven digits starting
      with 0, then one of 3, 5, 7, 8, 9 (ten digits) or 1 and one of 2, 6, 8,
      9 (eleven digits). */
  lemma {:induction false} PhoneCharacterization(s: string)
    ensures PhonePattern(s) <==>
      (|s| == 10 || |s| == 11) && AllDigits(s) && s[0] == '0' &&
      (if |s| == 10 then s[1] in "35789" else s[1] == '1' && s[2] in "2689")
  {
    if |s| == 10 {
      TwoDigitPrefix(s[..2]);
      assert s[..2][0] == s[0] && s[..2][1] == s[1];
      DigitsSplit(s, 2);
    } else if |s| == 11 {
      ThreeDigitPrefix(s[..3]);
      assert s[..3][0] == s[0] && s[..3][1] == s[1] && s[..3][2] == s[2];
      DigitsSplit(s, 3);
    }
  }

  lemma TwoDigitPrefix(p: string)
    requires |p| == 2
    ensures p in TwoDigitPrefixes <==> p[0] == '0' && p[1] in "35789"
  {
    if p[0] == '0' && p[1] in "35789" {
      assert p == [p[0], p[1]];
    }
  }

  lemma ThreeDigitPrefix(p: string)
    requires |p| == 3
    ensures p in ThreeDigitPrefixes <==> p[0] == '0' && p[1] == '1' && p[2] in "2689"
  {
    if p[0] == '0' && p[1] == '1' && p[2] in "2689" {
      assert p == [p[0], p[1], p[2]];
    }
  }

  lemma DigitsSplit(s: string, k: nat)
    requires k <= |s|
    ensures (forall i :: 0 <= i < k ==> IsDigit(s[i])) && AllDigits(s[k..]) <==> AllDigits(s)
  {
    if AllDigits(s) {
      forall i | 0 <= i < |s[k..]| ensures IsDigit(s[k..][i]) {
        assert s[k..][i] == s[k + i];
      }
    }
    if (forall i :: 0 <= i < k ==> IsDigit(s[i])) && AllDigits(s[k..]) {
      forall i | 0 <= i < |s| ensures IsDigit(s[i]) {
        if i >= k {
          assert s[i] == s[k..][i - k];
        }
      }
    }
  }

  /** A number with a space, a '+' (such as +84) or any other non-digit
      never matches. */
  lemma OnlyDigitsAccepted(s: string, c: char)
    requires c in s && !IsDigit(c)
    ensures !PhonePattern(s)
  {
    PhoneCharacterization(s);
  }

  /** The text handed to Date.parse for a parsed part: the number, or "NaN". */
  function Shown(n: Option<int>): string {
    if n.Some? then IntToString(n.value) else "NaN"
  }

  /** isDateValidDDMMYYYY: exactly three '/'-separated parts, parsed and
      handed to Date.parse as month/day/year. */
  function IsDateValidDDMMYYYY(date: string, parseInt: string -> Option<int>, isDateValid: string -> bool): (r: bool)
    ensures |Split(date, '/')| != 3 ==> !r
  {
    var parts := Split(date, '/');
    if |parts| != 3 then false
    else
      var day := parseInt(parts[0]);
      var month := parseInt(parts[1]);
      var year := parseInt(parts[2]);
      isDateValid(Shown(month) + "/" + Shown(day) + "/" + Shown(year))
  }

  /** A rendered number or "NaN" has no '/'. */
  lemma ShownNoSlash(n: Option<int>)
    ensures '/' !in Shown(n)
  {
    if n.Some? {
      var d := NatToString(if n.value < 0 then -n.value else n.value);
      assert forall i :: 0 <= i < |d| ==> d[i] != '/';
      assert '/' !in d;
    }
  }

  /** The parts are reordered, not changed: the text handed to Date.parse
      splits into the parsed month, day and year, and its verdict is the
      result whenever there are three parts. */
  lemma DateReordered(date: string, parseInt: string -> Option<int>, isDateValid: string -> bool)
    requires |Split(date, '/')| == 3
    ensures var parts := Split(date, '/');
      var text := Shown(parseInt(parts[1])) + "/" + Shown(parseInt(parts[0])) + "/" + Shown(parseInt(parts[2]));
      Split(text, '/') == [Shown(parseInt(parts[1])), Shown(parseInt(parts[0])), Shown(parseInt(parts[2]))] &&
      IsDateValidDDMMYYYY(date, parseInt, isDateValid) == isDateValid(text)
  {
    var parts := Split(date, '/');
    var m, d, y := Shown(parseInt(parts[1])), Shown(parseInt(parts[0])), Shown(parseInt(parts[2]));
    ShownNoSlash(parseInt(parts[1]));
    ShownNoSlash(parseInt(parts[0]));
    ShownNoSlash(parseInt(parts[2]));
    SplitThree(m, d, y);
  }

  /** Three slash-free pieces joined by '/' split back into themselves. */
  lemma SplitThree(m: string, d: string, y: string)
    requires '/' !in m && '/' !in d && '/' !in y
    ensures Split(m + "/" + d + "/" + y, '/') == [m, d, y]
  {
    var three := [m, d, y];
    SplitJoin(three, '/');
    JoinThree(m, d, y);
  }

  lemma JoinThree(m: string, d: string, y: string)
    ensures Join([m, d, y], "/") == m + "/" + d + "/" + y
  {
    assert [m, d, y][1..] == [d, y];
    assert [d, y][1..] == [y];
    assert Join([d, y], "/") == d + "/" + y;
  }
}

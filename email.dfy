/**
 * The frontend's email helpers: the address pattern (matched without regard
 * to case), normalisation, and the checks of one address, a list of
 * addresses and a comma-separated list.
 */
module Email {
  import opened Strings

  const EmailRequired := "Email is required"
  const InvalidEmail := "Invalid email"
  const EmailsRequired := "Emails are required"

  /** `[A-Z0-9._%+-]` under the i flag. */
  predicate LocalChar(c: char) {
    IsAsciiLetter(c) || IsDigit(c) || c == '.' || c == '_' || c == '%' || c == '+' || c == '-'
  }

  /** `[A-Z0-9.-]` under the i flag. */
  predicate DomainChar(c: char) {
    IsAsciiLetter(c) || IsDigit(c) || c == '.' || c == '-'
  }

  predicate AllLocal(s: string) {
    forall k :: 0 <= k < |s| ==> LocalChar(s[k])
  }

  predicate AllDomain(s: string) {
    forall k :: 0 <= k < |s| ==> DomainChar(s[k])
  }

  predicate AllLetters(s: string) {
    forall k :: 0 <= k < |s| ==> IsAsciiLetter(s[k])
  }

  /** The '@' at i and the '.' at j split s as the pattern requires: a
      non-empty local part, a non-empty domain part and a final label of at
      least two letters. */
  predicate MatchAt(s: string, i: int, j: int) {
    0 < i && i + 1 < j && j + 2 < |s| &&
    s[i] == '@' && s[j] == '.' &&
    AllLocal(s[..i]) && AllDomain(s[i + 1..j]) && AllLetters(s[j + 1..])
  }

  /** `/^[A-Z0-9._%+-]+@[A-Z0-9.-]+\.[A-Z]{2,}$/i` matches s. */
  predicate EmailPattern(s: string) {
    exists i, j | 0 < i < j < |s| :: MatchAt(s, i, j)
  }

  /** The pattern as a scan: the first '@' ends the local part and the last
      '.' after it starts the final label. */
  predicate EmailScan(s: string) {
    var at := FindChar(s, '@');
    at > 0 && AllLocal(s[..at]) &&
    var d := s[at + 1..];
    var dot := RFindChar(d, '.');
    dot >= 1 && |d| - dot - 1 >= 2 && AllDomain(d[..dot]) && AllLetters(d[dot + 1..])
  }

  /** The scan accepts exactly the strings the pattern matches. */
  lemma IsEmailMatchesPattern(s: string)
    ensures EmailScan(s) <==> EmailPattern(s)
  {
    if EmailScan(s) {
      ScanMatches(s);
    }
    if EmailPattern(s) {
      var i, j :| 0 < i < j < |s| && MatchAt(s, i, j);
      MatchScans(s, i, j);
    }
  }

  /** isEmail: the pattern's test, computed by the scan. */
  function IsEmail(s: string): (b: bool)
    ensures b <==> EmailPattern(s)
  {
    IsEmailMatchesPattern(s);
    EmailScan(s)
  }

  lemma ScanMatches(s: string)
    requires EmailScan(s)
    ensures EmailPattern(s)
  {
    var at := FindChar(s, '@');
    var d := s[at + 1..];
    var dot := RFindChar(d, '.');
    var j := at + 1 + dot;
    assert s[j] == d[dot];
    assert s[at + 1..j] == d[..dot];
    assert s[j + 1..] == d[dot + 1..];
    assert MatchAt(s, at, j);
  }

  lemma MatchScans(s: string, i: int, j: int)
    requires MatchAt(s, i, j)
    ensures EmailScan(s)
  {
    NoAtInLocal(s, i);
    FirstAt(s, i);
    var d := s[i + 1..];
    var dot := j - i - 1;
    NoDotInLabel(s, j);
    LastDot(d, dot);
    assert d[..dot] == s[i + 1..j];
    assert d[dot + 1..] == s[j + 1..];
  }

  lemma NoAtInLocal(s: string, i: int)
    requires 0 <= i <= |s| && AllLocal(s[..i])
    ensures forall k :: 0 <= k < i ==> s[k] != '@'
  {
    forall k | 0 <= k < i ensures s[k] != '@' {
      assert LocalChar(s[..i][k]);
    }
  }

  lemma NoDotInLabel(s: string, j: int)
    requires 0 <= j < |s| && AllLetters(s[j + 1..])
    ensures forall k :: j < k < |s| ==> s[k] != '.'
  {
    forall k | j < k < |s| ensures s[k] != '.' {
      assert IsAsciiLetter(s[j + 1..][k - j - 1]);
    }
  }

  lemma FirstAt(s: string, i: int)
    requires 0 <= i < |s| && s[i] == '@'
    requires forall k :: 0 <= k < i ==> s[k] != '@'
    ensures FindChar(s, '@') == i
  {
    assert '@' in s;
  }

  lemma LastDot(d: string, dot: int)
    requires 0 <= dot < |d| && d[dot] == '.'
    requires forall k :: dot < k < |d| ==> d[k] != '.'
    ensures RFindChar(d, '.') == dot
  {
    assert '.' in d;
  }

  /** A match holds exactly one '@'. */
  lemma OneAt(s: string)
    requires EmailPattern(s)
    ensures CountChar(s, '@') == 1
  {
    var i, j :| 0 < i < j < |s| && MatchAt(s, i, j);
    assert 0 < i && i + 1 < j && j < |s|;
    var rest := s[i + 1..];
    forall k | 0 <= k < |rest| ensures rest[k] != '@' {
      if i + 1 + k < j {
        assert rest[k] == s[i + 1..j][k];
        assert DomainChar(s[i + 1..j][k]);
      } else if i + 1 + k > j {
        assert rest[k] == s[j + 1..][k - (j - i)];
        assert IsAsciiLetter(s[j + 1..][k - (j - i)]);
      }
    }
    forall k | 0 <= k < i ensures s[..i][k] != '@' {
      assert LocalChar(s[..i][k]);
    }
    assert s == s[..i] + [s[i]] + rest;
    CountCharAbsent(s[..i], '@');
    CountCharAbsent(rest, '@');
    CountCharConcat(s[..i] + [s[i]], rest, '@');
    CountCharConcat(s[..i], [s[i]], '@');
    assert CountChar([s[i]], '@') == 1 by { assert [s[i]][1..] == []; }
  }

  /** Lower-casing keeps each character class. */
  lemma LowerKeepsClasses(c: char)
    ensures LocalChar(LowerChar(c)) == LocalChar(c)
    ensures DomainChar(LowerChar(c)) == DomainChar(c)
    ensures IsAsciiLetter(LowerChar(c)) == IsAsciiLetter(c)
    ensures (LowerChar(c) == '@') == (c == '@') && (LowerChar(c) == '.') == (c == '.')
    ensures IsJsSpace(LowerChar(c)) == IsJsSpace(c)
    ensures LowerChar(LowerChar(c)) == LowerChar(c)
  {
  }

  lemma LowerKeepsRuns(s: string)
    ensures AllLocal(Lower(s)) == AllLocal(s)
    ensures AllDomain(Lower(s)) == AllDomain(s)
    ensures AllLetters(Lower(s)) == AllLetters(s)
  {
    forall k | 0 <= k < |s| {
      LowerKeepsClasses(s[k]);
    }
  }

  lemma LowerSlices(s: string, i: int, j: int)
    requires 0 < i < j < |s|
    ensures Lower(s)[..i] == Lower(s[..i]) && Lower(s)[i + 1..j] == Lower(s[i + 1..j]) && Lower(s)[j + 1..] == Lower(s[j + 1..])
  {
  }

  /** Lower-casing keeps a split point of the pattern. */
  lemma MatchLower(s: string, i: int, j: int)
    ensures MatchAt(Lower(s), i, j) <==> MatchAt(s, i, j)
  {
    if 0 < i && i + 1 < j && j < |s| {
      LowerSlices(s, i, j);
      LowerKeepsRuns(s[..i]);
      LowerKeepsRuns(s[i + 1..j]);
      LowerKeepsRuns(s[j + 1..]);
      LowerKeepsClasses(s[i]);
      LowerKeepsClasses(s[j]);
    }
  }

  /** The pattern ignores case: an address and its lower-cased form are
      accepted together. */
  lemma CaseInsensitive(s: string)
    ensures EmailPattern(Lower(s)) <==> EmailPattern(s)
  {
    if EmailPattern(s) {
      var i, j :| 0 < i < j < |s| && MatchAt(s, i, j);
      MatchLower(s, i, j);
    }
    if EmailPattern(Lower(s)) {
      var i, j :| 0 < i < j < |Lower(s)| && MatchAt(Lower(s), i, j);
      MatchLower(s, i, j);
    }
  }

  /** formatEmail: the address trimmed and lower-cased, so it has no white
      space at either end and no upper-case ASCII letter. Each character is
      the trimmed input's character, lower-cased, so the pattern accepts the
      result exactly when it accepts the trimmed input. */
  function FormatEmail(email: string): (r: string)
    ensures |r| == |JsTrim(email)| && JsTrim(r) == r && Lower(r) == r
    ensures forall k :: 0 <= k < |r| ==> r[k] == LowerChar(JsTrim(email)[k])
    ensures EmailPattern(r) <==> EmailPattern(JsTrim(email))
  {
    var t := JsTrim(email);
    FormattedFacts(t, email);
    Lower(t)
  }

  lemma FormattedFacts(t: string, email: string)
    requires t == JsTrim(email)
    ensures JsTrim(Lower(t)) == Lower(t) && Lower(Lower(t)) == Lower(t)
    ensures EmailPattern(Lower(t)) <==> EmailPattern(t)
  {
    TrimEndsNonSpace(email, IsJsSpace);
    LowerStaysTrimmed(t);
    LowerIdempotent(t);
    CaseInsensitive(t);
  }

  lemma LowerIdempotent(s: string)
    ensures Lower(Lower(s)) == Lower(s)
  {
    forall k | 0 <= k < |s| ensures Lower(Lower(s))[k] == Lower(s)[k] {
      LowerKeepsClasses(s[k]);
    }
  }

  /** Lower-casing a trimmed string leaves it trimmed. */
  lemma LowerStaysTrimmed(t: string)
    requires t == [] || (!IsJsSpace(t[0]) && !IsJsSpace(t[|t| - 1]))
    ensures JsTrim(Lower(t)) == Lower(t)
  {
    if t != [] {
      LowerKeepsClasses(t[0]);
      LowerKeepsClasses(t[|t| - 1]);
    }
    TrimOfTrimmed(Lower(t), IsJsSpace);
  }

  /** Formatting twice is formatting once. */
  lemma FormatEmailIdempotent(email: string)
    ensures FormatEmail(FormatEmail(email)) == FormatEmail(email)
  {
    TrimEndsNonSpace(email, IsJsSpace);
    LowerStaysTrimmed(JsTrim(email));
    LowerIdempotent(JsTrim(email));
  }

  /** validateEmail: no trimming happens first. */
  function ValidateEmail(email: string): (r: string)
    ensures r == EmailRequired <==> email == ""
    ensures r == InvalidEmail <==> email != "" && !EmailPattern(email)
    ensures r == "" <==> EmailPattern(email)
  {
    IsEmailMatchesPattern(email);
    if email == "" then EmailRequired
    else if !IsEmail(email) then InvalidEmail
    else ""
  }

  /** A leading space makes an address invalid; it is not trimmed away. */
  lemma LeadingSpaceRejected(email: string)
    requires email != "" && email[0] == ' '
    ensures ValidateEmail(email) == InvalidEmail
  {
    forall i, j | 0 < i < |email| ensures !MatchAt(email, i, j) {
      assert email[..i][0] == ' ';
    }
  }

  /** validateEmails: the loop stops at the first invalid address. */
  method ValidateEmails(emails: seq<string>) returns (r: string)
    ensures r == EmailsRequired <==> |emails| == 0
    ensures r == InvalidEmail <==> |emails| > 0 && exists i :: 0 <= i < |emails| && !EmailPattern(emails[i])
    ensures r == "" <==> |emails| > 0 && forall i :: 0 <= i < |emails| ==> EmailPattern(emails[i])
  {
    if |emails| == 0 {
      return EmailsRequired;
    }
    for i := 0 to |emails|
      invariant forall k :: 0 <= k < i ==> EmailPattern(emails[k])
    {
      IsEmailMatchesPattern(emails[i]);
      if !IsEmail(emails[i]) {
        return InvalidEmail;
      }
    }
    r := "";
  }

  /** The pieces validateEmailsString checks: the comma-separated parts, trimmed. */
  function Pieces(emails: string): (r: seq<string>)
    ensures |r| == |Split(emails, ',')|
    ensures forall i :: 0 <= i < |r| ==> r[i] == JsTrim(Split(emails, ',')[i])
  {
    var parts := Split(emails, ',');
    seq(|parts|, i requires 0 <= i < |parts| => JsTrim(parts[i]))
  }

  /** validateEmailsString. */
  method ValidateEmailsString(emails: string) returns (r: string)
    ensures r != EmailsRequired
    ensures r == "" <==> forall i :: 0 <= i < |Pieces(emails)| ==> EmailPattern(Pieces(emails)[i])
    ensures r == InvalidEmail <==> exists i :: 0 <= i < |Pieces(emails)| && !EmailPattern(Pieces(emails)[i])
  {
    r := ValidateEmails(Pieces(emails));
  }

  /** A string ending in a comma splits into a last piece that is empty. */
  lemma {:induction false} SplitTrailingSeparator(s: string, sep: char)
    requires s != [] && s[|s| - 1] == sep
    ensures var parts := Split(s, sep); parts[|parts| - 1] == ""
  {
    if |s| == 1 {
      assert s[1..] == [];
    } else {
      assert s[1..][|s[1..]| - 1] == sep;
      SplitTrailingSeparator(s[1..], sep);
      SplitCount(s[1..], sep);
      assert sep in s[1..];
      assert CountChar(s[1..], sep) > 0 by {
        if CountChar(s[1..], sep) == 0 {
          NoCountNoChar(s[1..], sep);
        }
      }
    }
  }

  lemma {:induction false} NoCountNoChar(s: string, c: char)
    requires CountChar(s, c) == 0
    ensures c !in s
  {
    if s != [] {
      NoCountNoChar(s[1..], c);
      assert s == [s[0]] + s[1..];
    }
  }

  /** A trailing comma yields an empty last piece, so the list is invalid. */
  lemma TrailingCommaInvalid(emails: string)
    requires emails != "" && emails[|emails| - 1] == ','
    ensures exists i :: 0 <= i < |Pieces(emails)| && !EmailPattern(Pieces(emails)[i])
  {
    var parts := Split(emails, ',');
    SplitTrailingSeparator(emails, ',');
    var p := Pieces(emails);
    var i := |p| - 1;
    assert parts[i] == "";
    EmptyPieceInvalid(parts[i]);
    assert p[i] == JsTrim(parts[i]);
    assert !EmailPattern(p[i]);
  }

  /** An empty piece is not an address. */
  lemma EmptyPieceInvalid(part: string)
    requires part == ""
    ensures !EmailPattern(JsTrim(part))
  {
    assert JsTrim(part) == "";
    IsEmailMatchesPattern("");
  }
}

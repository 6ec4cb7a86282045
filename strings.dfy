/**
 * String primitives of the two runtimes the model covers (JavaScript and
 * Python): white-space classes, trimming, substring search, splitting on a
 * character, joining, ASCII case mapping and decimal rendering of integers.
 * Strings are sequences of Unicode scalar values.
 */
module Strings {

  /** The characters String.prototype.trim removes in JavaScript
      (WhiteSpace and LineTerminator of ECMA-262). */
  predicate IsJsSpace(c: char) {
    c == '\t' || c == '\n' || c == '\U{000B}' || c == '\U{000C}' || c == '\r' || c == ' '
    || c == '\U{00A0}' || c == '\U{1680}' || ('\U{2000}' <= c <= '\U{200A}')
    || c == '\U{2028}' || c == '\U{2029}' || c == '\U{202F}' || c == '\U{205F}'
    || c == '\U{3000}' || c == '\U{FEFF}'
  }

  /** The characters Python's str.strip() removes when called without arguments
      (those for which str.isspace holds). */
  predicate IsPySpace(c: char) {
    ('\t' <= c <= '\r') || ('\U{001C}' <= c <= '\U{001F}') || c == ' '
    || c == '\U{0085}' || c == '\U{00A0}' || c == '\U{1680}' || ('\U{2000}' <= c <= '\U{200A}')
    || c == '\U{2028}' || c == '\U{2029}' || c == '\U{202F}' || c == '\U{205F}' || c == '\U{3000}'
  }

  /** Every character of s satisfies isSpace (vacuously true for ""). */
  predicate AllSpace(s: string, isSpace: char -> bool) {
    forall i :: 0 <= i < |s| ==> isSpace(s[i])
  }

  /** Drops the leading characters that satisfy isSpace. */
  function TrimStart(s: string, isSpace: char -> bool): (r: string)
    ensures |r| <= |s| && r == s[|s| - |r|..]
    ensures AllSpace(s[..|s| - |r|], isSpace)
    ensures r == [] || !isSpace(r[0])
  {
    if s != [] && isSpace(s[0]) then TrimStart(s[1..], isSpace) else s
  }

  /** Drops the trailing characters that satisfy isSpace. */
  function TrimEnd(s: string, isSpace: char -> bool): (r: string)
    ensures |r| <= |s| && r == s[..|r|]
    ensures AllSpace(s[|r|..], isSpace)
    ensures r == [] || !isSpace(r[|r| - 1])
  {
    if s != [] && isSpace(s[|s| - 1]) then TrimEnd(s[..|s| - 1], isSpace) else s
  }

  /** Drops leading and trailing characters that satisfy isSpace. */
  function Trim(s: string, isSpace: char -> bool): string {
    TrimEnd(TrimStart(s, isSpace), isSpace)
  }

  /** JavaScript's String.prototype.trim. */
  function JsTrim(s: string): string {
    Trim(s, IsJsSpace)
  }

  /** Python's str.strip() without arguments. */
  function PyStrip(s: string): string {
    Trim(s, IsPySpace)
  }

  /** The trimmed string neither starts nor ends with white space. */
  lemma TrimEndsNonSpace(s: string, isSpace: char -> bool)
    ensures var r := Trim(s, isSpace); r == [] || (!isSpace(r[0]) && !isSpace(r[|r| - 1]))
  {
    var t := TrimStart(s, isSpace);
    var r := TrimEnd(t, isSpace);
    assert r != [] ==> r[0] == t[0];
  }

  /** The trimmed string is the contiguous piece of s that starts where
      TrimStart stopped. */
  lemma TrimIsSlice(s: string, isSpace: char -> bool)
    ensures var i, r := |s| - |TrimStart(s, isSpace)|, Trim(s, isSpace);
      i + |r| <= |s| && r == s[i..i + |r|]
  {
    var t := TrimStart(s, isSpace);
    var r := TrimEnd(t, isSpace);
    var i := |s| - |t|;
    assert t == s[i..];
    assert r == t[..|r|];
  }

  /** Only white space is cut off, on either side. */
  lemma TrimCutsOnlySpace(s: string, isSpace: char -> bool)
    ensures var i, r := |s| - |TrimStart(s, isSpace)|, Trim(s, isSpace);
      i + |r| <= |s| && AllSpace(s[..i], isSpace) && AllSpace(s[i + |r|..], isSpace)
  {
    var t := TrimStart(s, isSpace);
    var r := TrimEnd(t, isSpace);
    var i := |s| - |t|;
    assert s[i + |r|..] == t[|r|..];
  }

  /** r is s[i..i + |r|] and s holds only white space outside that slice. */
  predicate SliceWithinSpace(s: string, r: string, i: nat, isSpace: char -> bool) {
    i + |r| <= |s| && r == s[i..i + |r|]
      && AllSpace(s[..i], isSpace) && AllSpace(s[i + |r|..], isSpace)
  }

  /** Trimming keeps a slice of the string and cuts only white space. */
  lemma TrimIsSliceWithinSpace(s: string, isSpace: char -> bool)
    ensures SliceWithinSpace(s, Trim(s, isSpace), |s| - |TrimStart(s, isSpace)|, isSpace)
  {
    TrimIsSlice(s, isSpace);
    TrimCutsOnlySpace(s, isSpace);
  }

  /** Trimming yields "" exactly when the string is all white space. */
  lemma TrimEmptyIffAllSpace(s: string, isSpace: char -> bool)
    ensures Trim(s, isSpace) == [] <==> AllSpace(s, isSpace)
  {
    var t := TrimStart(s, isSpace);
    var r := TrimEnd(t, isSpace);
    var k := |s| - |t|;
    assert t == s[k..];
    assert t != [] ==> t[0] == s[k] && !isSpace(t[0]);
    if AllSpace(s, isSpace) {
      assert t == [];
    }
    if r == [] {
      assert t[0..] == t;
      assert t == [];
      assert s[..k] == s;
    }
  }

  /** A string without leading and trailing white space is its own trim. */
  lemma TrimOfTrimmed(s: string, isSpace: char -> bool)
    requires s == [] || (!isSpace(s[0]) && !isSpace(s[|s| - 1]))
    ensures Trim(s, isSpace) == s
  {
  }

  /** Trimming is idempotent. */
  lemma TrimIdempotent(s: string, isSpace: char -> bool)
    ensures Trim(Trim(s, isSpace), isSpace) == Trim(s, isSpace)
  {
    TrimEndsNonSpace(s, isSpace);
    TrimOfTrimmed(Trim(s, isSpace), isSpace);
  }

  /** sub occurs in s starting at index i. */
  predicate OccursAt(s: string, sub: string, i: nat) {
    i + |sub| <= |s| && s[i..i + |sub|] == sub
  }

  /** sub is a substring of s (Python's `in`, JavaScript's includes). */
  predicate Contains(s: string, sub: string) {
    exists i: nat :: i <= |s| && OccursAt(s, sub, i)
  }

  /** The empty string occurs in every string. */
  lemma EveryContainsEmpty()
    ensures forall s: string :: Contains(s, "")
  {
    forall s: string ensures Contains(s, "") {
      assert OccursAt(s, "", 0);
    }
  }

  function FindFrom(s: string, sub: string, from: nat): (r: int)
    requires from <= |s|
    ensures r == -1 || (from <= r && OccursAt(s, sub, r))
    ensures r == -1 ==> forall j: nat :: from <= j ==> !OccursAt(s, sub, j)
    ensures r >= 0 ==> forall j: nat :: from <= j < r ==> !OccursAt(s, sub, j)
    decreases |s| - from
  {
    if OccursAt(s, sub, from) then from
    else if from == |s| then -1
    else FindFrom(s, sub, from + 1)
  }

  /** Index of the first occurrence of sub in s, or -1 (Python's str.find,
      JavaScript's indexOf). */
  function Find(s: string, sub: string): (r: int)
    ensures r == -1 <==> !Contains(s, sub)
    ensures r >= 0 ==> OccursAt(s, sub, r) && forall j: nat :: j < r ==> !OccursAt(s, sub, j)
  {
    FindFrom(s, sub, 0)
  }

  /** Index of the first occurrence of character c in s, or -1. */
  function FindChar(s: string, c: char): (r: int)
    ensures r >= -1
    ensures r == -1 <==> c !in s
    ensures r >= 0 ==> r < |s| && s[r] == c && forall j :: 0 <= j < r ==> s[j] != c
  {
    if s == [] then -1
    else if s[0] == c then 0
    else
      var r := FindChar(s[1..], c);
      assert s == [s[0]] + s[1..];
      assert forall x :: x in s <==> x == s[0] || x in s[1..];
      if r == -1 then -1
      else
        assert s[r + 1] == s[1..][r];
        r + 1
  }

  /** The earliest occurrence of sub in s at or after from is at i. */
  predicate FirstFrom(s: string, sub: string, from: nat, i: nat) {
    from <= i && OccursAt(s, sub, i) && forall j: nat :: from <= j < i ==> !OccursAt(s, sub, j)
  }

  /** Occurrences in a suffix are occurrences in the whole string, shifted. */
  lemma OccursInSuffix(s: string, sub: string, a: nat, k: nat)
    requires a <= |s|
    ensures OccursAt(s[a..], sub, k) <==> OccursAt(s, sub, a + k)
  {
    if a + k + |sub| <= |s| {
      assert s[a..][k..k + |sub|] == s[a + k..a + k + |sub|];
    }
  }

  /** A piece of a string without sub does not contain sub either. */
  lemma NotContainsSlice(s: string, sub: string, i: nat, j: nat)
    requires i <= j <= |s| && !Contains(s, sub)
    ensures !Contains(s[i..j], sub)
  {
    forall k: nat | k <= |s[i..j]| && OccursAt(s[i..j], sub, k)
      ensures false
    {
      assert k + |sub| <= j - i;
      var t := s[i..j];
      var u, w := t[k..k + |sub|], s[i + k..i + k + |sub|];
      assert |u| == |w|;
      forall m | 0 <= m < |sub|
        ensures u[m] == w[m]
      {
        assert u[m] == t[k + m];
        assert w[m] == s[i + k + m];
      }
      assert u == w;
      assert OccursAt(s, sub, i + k);
    }
  }

  /** Trimming never creates an occurrence of a substring. */
  lemma TrimNotContains(s: string, sub: string, isSpace: char -> bool)
    requires !Contains(s, sub)
    ensures !Contains(Trim(s, isSpace), sub)
  {
    TrimIsSlice(s, isSpace);
    var i := |s| - |TrimStart(s, isSpace)|;
    NotContainsSlice(s, sub, i, i + |Trim(s, isSpace)|);
  }

  /** `s.split(sep, 1)[1]` in Python: what follows the first occurrence of sep. */
  function SplitAfter(s: string, sep: string): (r: string)
    requires Contains(s, sep)
  {
    s[Find(s, sep) + |sep|..]
  }

  /** `s.split(sep, 1)[0]` in Python: what precedes the first occurrence of sep,
      or all of s when sep does not occur. */
  function SplitBefore(s: string, sep: string): (r: string)
    requires sep != ""
    ensures !Contains(r, sep)
  {
    if Contains(s, sep) then
      var i := Find(s, sep);
      assert !Contains(s[..i], sep) by {
        forall k: nat | k <= i && OccursAt(s[..i], sep, k)
          ensures false
        {
          assert s[..i][k..k + |sep|] == s[k..k + |sep|];
          assert OccursAt(s, sep, k) && k < i;
        }
      }
      s[..i]
    else s
  }

  /** open first occurs at i and the next close after it starts at j. */
  predicate Delimited(s: string, open: string, close: string, i: nat, j: nat) {
    FirstFrom(s, open, 0, i) && FirstFrom(s, close, i + |open|, j)
  }

  /** `s.split(open, 1)[1].split(close, 1)[0]` is the text between the first
      open and the next close. */
  lemma SplitAfterBefore(s: string, open: string, close: string)
    requires close != "" && Contains(s, open) && Contains(SplitAfter(s, open), close)
    ensures exists i: nat, j: nat :: (Delimited(s, open, close, i, j)
      && SplitBefore(SplitAfter(s, open), close) == s[i + |open|..j])
  {
    var a := SplitAfter(s, open);
    var i := Find(s, open);
    var b := SplitBefore(a, close);
    var k := Find(a, close);
    var m := i + |open|;
    OccursInSuffix(s, close, m, k);
    forall j: nat | m <= j < m + k
      ensures !OccursAt(s, close, j)
    {
      OccursInSuffix(s, close, m, j - m);
    }
    assert FirstFrom(s, close, m, m + k);
    assert b == s[m..m + k];
    assert Delimited(s, open, close, i, m + k);
  }

  /** Index of the last occurrence of character c in s, or -1 (Python's str.rfind). */
  function RFindChar(s: string, c: char): (r: int)
    ensures r >= -1
    ensures r == -1 <==> c !in s
    ensures r >= 0 ==> r < |s| && s[r] == c && forall j :: r < j < |s| ==> s[j] != c
  {
    if s == [] then -1
    else if s[|s| - 1] == c then |s| - 1
    else
      var r := RFindChar(s[..|s| - 1], c);
      assert forall x :: x in s[..|s| - 1] ==> x in s;
      assert forall k :: 0 <= k < |s| - 1 ==> s[..|s| - 1][k] == s[k];
      r
  }

  /** Splits s on every occurrence of sep (JavaScript's split(c), Python's
      split(c) for a one-character separator). */
  function Split(s: string, sep: char): (r: seq<string>)
    ensures |r| >= 1
    ensures forall i :: 0 <= i < |r| ==> sep !in r[i]
  {
    if s == [] then [""]
    else
      var rest := Split(s[1..], sep);
      if s[0] == sep then [""] + rest
      else [[s[0]] + rest[0]] + rest[1..]
  }

  /** Joins parts with sep between consecutive parts (Array.prototype.join,
      Python's str.join). */
  function Join(parts: seq<string>, sep: string): string {
    if |parts| == 0 then ""
    else if |parts| == 1 then parts[0]
    else parts[0] + sep + Join(parts[1..], sep)
  }

  lemma JoinConsPrefix(a: string, b: string, t: seq<string>, sep: string)
    ensures Join([a + b] + t, sep) == a + Join([b] + t, sep)
  {
    if |t| > 0 {
      assert ([a + b] + t)[1..] == t;
      assert ([b] + t)[1..] == t;
    }
  }

  /** Joining the pieces of a split with the same separator gives back the string. */
  lemma {:induction false} JoinSplit(s: string, sep: char)
    ensures Join(Split(s, sep), [sep]) == s
  {
    if s != [] {
      var rest := Split(s[1..], sep);
      JoinSplit(s[1..], sep);
      if s[0] == sep {
        assert ([""] + rest)[1..] == rest;
      } else {
        assert rest == [rest[0]] + rest[1..];
        JoinConsPrefix([s[0]], rest[0], rest[1..], [sep]);
      }
    }
  }

  lemma {:induction false} SplitNoSep(a: string, sep: char)
    requires sep !in a
    ensures Split(a, sep) == [a]
  {
    if a != [] {
      assert a[0] in a;
      assert forall x :: x in a[1..] ==> x in a;
      SplitNoSep(a[1..], sep);
      assert [a[0]] + a[1..] == a;
    }
  }

  lemma {:induction false} SplitAfterPiece(a: string, b: string, sep: char)
    requires sep !in a
    ensures Split(a + [sep] + b, sep) == [a] + Split(b, sep)
  {
    if a == [] {
      assert a + [sep] + b == [sep] + b;
      assert ([sep] + b)[1..] == b;
    } else {
      assert (a + [sep] + b)[1..] == a[1..] + [sep] + b;
      SplitAfterPiece(a[1..], b, sep);
      assert [a[0]] + a[1..] == a;
    }
  }

  /** Splitting a join of separator-free parts gives back the parts. */
  lemma {:induction false} SplitJoin(parts: seq<string>, sep: char)
    requires |parts| >= 1
    requires forall i :: 0 <= i < |parts| ==> sep !in parts[i]
    ensures Split(Join(parts, [sep]), sep) == parts
  {
    if |parts| == 1 {
      SplitNoSep(parts[0], sep);
    } else {
      SplitJoin(parts[1..], sep);
      SplitAfterPiece(parts[0], Join(parts[1..], [sep]), sep);
      assert [parts[0]] + parts[1..] == parts;
    }
  }

  /** Joining with one more part at the end adds the separator and the part. */
  lemma {:induction false} JoinAppend(parts: seq<string>, x: string, sep: string)
    requires |parts| >= 1
    ensures Join(parts + [x], sep) == Join(parts, sep) + sep + x
  {
    if |parts| == 1 {
      assert (parts + [x])[1..] == [x];
    } else {
      assert (parts + [x])[1..] == parts[1..] + [x];
      JoinAppend(parts[1..], x, sep);
    }
  }

  /** Number of occurrences of character c in s. */
  function CountChar(s: string, c: char): nat {
    if s == [] then 0 else (if s[0] == c then 1 else 0) + CountChar(s[1..], c)
  }

  lemma {:induction false} CountCharConcat(a: string, b: string, c: char)
    ensures CountChar(a + b, c) == CountChar(a, c) + CountChar(b, c)
  {
    if a == [] {
      assert a + b == b;
    } else {
      assert (a + b)[0] == a[0];
      assert (a + b)[1..] == a[1..] + b;
      CountCharConcat(a[1..], b, c);
    }
  }

  lemma {:induction false} CountCharAbsent(a: string, c: char)
    requires c !in a
    ensures CountChar(a, c) == 0
  {
    if a != [] {
      assert a[0] in a;
      assert forall x :: x in a[1..] ==> x in a;
      CountCharAbsent(a[1..], c);
    }
  }

  /** A string whose only occurrence of c is its last character. */
  lemma CountCharOnlyLast(s: string, c: char)
    requires |s| > 0 && s[|s| - 1] == c
    requires forall i | 0 <= i < |s| - 1 :: s[i] != c
    ensures CountChar(s, c) == 1
  {
    var init := s[..|s| - 1];
    assert s == init + [c];
    CountCharAbsent(init, c);
    CountCharConcat(init, [c], c);
    assert CountChar([c], c) == 1 by { assert [c][1..] == []; }
  }

  /** Splitting yields one more piece than there are separators. */
  lemma {:induction false} SplitCount(s: string, sep: char)
    ensures |Split(s, sep)| == CountChar(s, sep) + 1
  {
    if s != [] {
      SplitCount(s[1..], sep);
    }
  }

  /** Joining n separator-free parts puts exactly n - 1 separators in the result. */
  lemma {:induction false} JoinSeparatorCount(parts: seq<string>, sep: char)
    requires |parts| >= 1
    requires forall i :: 0 <= i < |parts| ==> sep !in parts[i]
    ensures CountChar(Join(parts, [sep]), sep) == |parts| - 1
  {
    CountCharAbsent(parts[0], sep);
    if |parts| > 1 {
      JoinSeparatorCount(parts[1..], sep);
      CountCharConcat(parts[0] + [sep], Join(parts[1..], [sep]), sep);
      CountCharConcat(parts[0], [sep], sep);
      assert CountChar([sep], sep) == 1 by { assert [sep][1..] == []; }
    }
  }

  /** ASCII lower-casing of one character. */
  function LowerChar(c: char): char {
    if 'A' <= c <= 'Z' then (c as int + 32) as char else c
  }

  /** ASCII lower-casing of a string; other characters are kept. */
  function Lower(s: string): (r: string)
    ensures |r| == |s| && forall i :: 0 <= i < |s| ==> r[i] == LowerChar(s[i])
  {
    seq(|s|, i requires 0 <= i < |s| => LowerChar(s[i]))
  }

  predicate IsDigit(c: char) {
    '0' <= c <= '9'
  }

  predicate IsAsciiLetter(c: char) {
    ('a' <= c <= 'z') || ('A' <= c <= 'Z')
  }

  function DigitChar(d: nat): char
    requires d < 10
  {
    ('0' as int + d) as char
  }

  /** Decimal rendering of a natural number, without leading zeros. */
  function NatToString(n: nat): (r: string)
    ensures |r| >= 1 && forall i :: 0 <= i < |r| ==> IsDigit(r[i])
  {
    if n < 10 then [DigitChar(n)] else NatToString(n / 10) + [DigitChar(n % 10)]
  }

  /** Decimal rendering of an integer, as String(i) / str(i) print it. */
  function IntToString(i: int): string {
    if i < 0 then "-" + NatToString(-i) else NatToString(i)
  }

  /** A decimal rendering never contains the character '-'. */
  lemma NatToStringNoDash(n: nat)
    ensures '-' !in NatToString(n)
  {
    var r := NatToString(n);
    assert forall i :: 0 <= i < |r| ==> r[i] != '-';
  }

  /** String(n).padStart(2, '0'). */
  function PadTwo(n: nat): (r: string)
    ensures |r| >= 2
  {
    var s := NatToString(n);
    if |s| < 2 then "0" + s else s
  }
}

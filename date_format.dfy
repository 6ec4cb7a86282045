/**
 * formatTimeAgo: how long ago a forum item was posted, in Vietnamese.
 * The clock and the calendar are parameters: `diffMs` is now minus the
 * parsed date in milliseconds, and year, month (1-12) and day are the
 * parsed date's local calendar fields.
 */
module DateFormat {
  import opened Strings

  const JustNow := "Vừa xong"
  const MinuteMs := 60000
  const HourMs := 3600000
  const DayMs := 86400000

  /** formatTimeAgo. Each unit is floored from the one below it, as the code
      does with Math.floor. */
  function FormatTimeAgo(isoDate: string, diffMs: int, year: int, month: nat, day: nat): (r: string)
    ensures isoDate == "" ==> r == ""
    ensures isoDate != "" && diffMs < MinuteMs ==> r == JustNow
    ensures isoDate != "" && MinuteMs <= diffMs < HourMs ==>
      1 <= diffMs / MinuteMs < 60 && r == NatToString(diffMs / MinuteMs) + " phút trước"
    ensures isoDate != "" && HourMs <= diffMs < DayMs ==>
      1 <= diffMs / HourMs < 24 && r == NatToString(diffMs / HourMs) + " giờ trước"
    ensures isoDate != "" && DayMs <= diffMs < 7 * DayMs ==>
      1 <= diffMs / DayMs < 7 && r == NatToString(diffMs / DayMs) + " ngày trước"
    ensures isoDate != "" && diffMs >= 7 * DayMs ==>
      r == IntToString(year) + "-" + PadTwo(month) + "-" + PadTwo(day)
  {
    if isoDate == "" then ""
    else
      var diffSec := diffMs / 1000;
      var diffMin := diffSec / 60;
      var diffH := diffMin / 60;
      var diffD := diffH / 24;
      FloorsCompose(diffMs);
      if diffH < 24 then
        if diffH >= 1 then NatToString(diffH) + " giờ trước"
        else if diffMin >= 1 then NatToString(diffMin) + " phút trước"
        else JustNow
      else if diffD < 7 then NatToString(diffD) + " ngày trước"
      else IntToString(year) + "-" + PadTwo(month) + "-" + PadTwo(day)
  }

  /** Flooring seconds, then minutes, then hours, then days gives the floor
      of the milliseconds divided by the whole unit. */
  lemma FloorsCompose(ms: int)
    ensures ms / 1000 / 60 == ms / MinuteMs
    ensures ms / 1000 / 60 / 60 == ms / HourMs
    ensures ms / 1000 / 60 / 60 / 24 == ms / DayMs
  {
    NestedFloor(ms, 1000, 60);
    NestedFloor(ms, MinuteMs, 60);
    NestedFloor(ms, HourMs, 24);
  }

  /** Euclidean division by b and then by c is division by b * c. */
  lemma NestedFloor(a: int, b: int, c: int)
    requires b > 0 && c > 0
    ensures a / b / c == a / (b * c)
  {
    var q, r := a / b, a % b;
    var q2, r2 := q / c, q % c;
    Regroup(q2, c, r2, b, r);
    SumBelow(r2, b, c, r);
    DivUnique(a, b * c, q2, r2 * b + r);
  }

  lemma Regroup(q2: int, c: int, r2: int, b: int, r: int)
    ensures (q2 * c + r2) * b + r == q2 * (b * c) + (r2 * b + r)
  {
    assert (q2 * c + r2) * b == q2 * c * b + r2 * b;
    assert q2 * c * b == q2 * (b * c);
  }

  lemma SumBelow(r2: int, b: int, c: int, r: int)
    requires 0 <= r2 < c && 0 <= r < b
    ensures 0 <= r2 * b + r < b * c
  {
    MulMonotone(r2, c - 1, b);
    MulMonotone(0, r2, b);
    assert (c - 1) * b == b * c - b;
  }

  /** The quotient is the unique q with a == q * d + r and 0 <= r < d. */
  lemma DivUnique(a: int, d: int, q: int, r: int)
    requires d > 0 && a == q * d + r && 0 <= r < d
    ensures a / d == q
  {
    var q0, r0 := a / d, a % d;
    assert a == q0 * d + r0;
    assert (q + 1) * d == q * d + d && (q0 + 1) * d == q0 * d + d;
    if q0 > q {
      MulMonotone(q + 1, q0, d);
      assert false;
    } else if q0 < q {
      MulMonotone(q0 + 1, q, d);
      assert false;
    }
  }

  lemma MulMonotone(x: int, y: int, d: int)
    requires x <= y && d > 0
    ensures x * d <= y * d
  {
    var k := y - x;
    assert y * d == x * d + k * d;
  }

  /** Any future date, however far ahead, shows as just now. */
  lemma FutureIsJustNow(isoDate: string, diffMs: int, year: int, month: nat, day: nat)
    requires isoDate != "" && diffMs < 0
    ensures FormatTimeAgo(isoDate, diffMs, year, month, day) == JustNow
  {
  }
}

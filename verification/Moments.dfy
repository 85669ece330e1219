/**
  format_observed_at of observation/record.py: ISO 8601 with milliseconds and, for
  UTC, a trailing "Z". A moment is what a datetime holds: its fields and its offset
  from UTC in seconds.
*/
module Moments {
  import opened Powers
  import opened Strings

  datatype Moment = Moment(
    year: nat, month: nat, day: nat, hour: nat, minute: nat, second: nat, microsecond: nat, offset: int)

  predicate Valid(m: Moment) {
    && 1 <= m.year <= 9999 && 1 <= m.month <= 12 && 1 <= m.day <= 31
    && m.hour < 24 && m.minute < 60 && m.second < 60 && m.microsecond < 1000000
    && -86400 < m.offset < 86400
  }

  function Decimal(d: nat): char
    requires d < 10
  {
    ('0' as int + d) as char
  }

  /** The `w` low decimal digits of `n`. */
  function Padded(n: nat, w: nat): (s: string)
    ensures |s| == w
  {
    if w == 0 then "" else Padded(n / 10, w - 1) + [Decimal(n % 10)]
  }

  function Day(m: Moment): (s: string)
    ensures |s| == 10
  {
    Padded(m.year, 4) + ("-" + Padded(m.month, 2)) + ("-" + Padded(m.day, 2))
  }

  /** Everything before the offset. */
  function LocalTime(m: Moment): (s: string)
    ensures |s| == 23
  {
    Day(m) + ("T" + Padded(m.hour, 2)) + (":" + Padded(m.minute, 2)) + (":" + Padded(m.second, 2))
    + ("." + Padded(m.microsecond / 1000, 3))
  }

  function Offset(seconds: int): string {
    var n := if seconds < 0 then -seconds else seconds;
    (if seconds < 0 then "-" else "+") + Padded(n / 3600, 2) + ":" + Padded(n / 60 % 60, 2)
    + if n % 60 == 0 then "" else ":" + Padded(n % 60, 2)
  }

  /** isoformat(timespec="milliseconds") */
  function IsoFormat(m: Moment): string {
    LocalTime(m) + Offset(m.offset)
  }

  predicate StartsWith(s: string, prefix: string) {
    |prefix| <= |s| && s[..|prefix|] == prefix
  }

  /** str.replace */
  function Replace(s: string, pattern: string, substitute: string): string
    requires pattern != ""
    decreases |s|
  {
    if s == "" then ""
    else if StartsWith(s, pattern) then substitute + Replace(s[|pattern|..], pattern, substitute)
    else [s[0]] + Replace(s[1..], pattern, substitute)
  }

  function FormatObservedAt(m: Moment): string {
    Replace(IsoFormat(m), "+00:00", "Z")
  }

  // ----- what the replacement does ------------------------------------------

  lemma {:induction false} ReplaceSkips(a: string, b: string)
    requires '+' !in a
    ensures Replace(a + b, "+00:00", "Z") == a + Replace(b, "+00:00", "Z")
    decreases |a|
  {
    if a == "" {
      assert a + b == b;
    } else {
      assert (a + b)[0] == a[0] != '+' && (a + b)[1..] == a[1..] + b;
      ReplaceSkips(a[1..], b);
    }
  }

  lemma {:induction false} DigitsOnly(n: nat, w: nat)
    ensures forall c :: c in Padded(n, w) ==> '0' <= c <= '9'
  {
    if w == 0 {
    } else {
      DigitsOnly(n / 10, w - 1);
    }
  }

  lemma NoPlusInLocalTime(m: Moment)
    ensures '+' !in LocalTime(m)
  {
    DigitsOnly(m.year, 4);
    DigitsOnly(m.month, 2);
    DigitsOnly(m.day, 2);
    DigitsOnly(m.hour, 2);
    DigitsOnly(m.minute, 2);
    DigitsOnly(m.second, 2);
    DigitsOnly(m.microsecond / 1000, 3);
  }

  /** A moment in UTC is its local time and a "Z"; any other keeps its local time. */
  lemma UtcEndsInZ(m: Moment)
    ensures FormatObservedAt(m) == LocalTime(m) + Replace(Offset(m.offset), "+00:00", "Z")
    ensures m.offset == 0 ==> FormatObservedAt(m) == LocalTime(m) + "Z"
  {
    NoPlusInLocalTime(m);
    ReplaceSkips(LocalTime(m), Offset(m.offset));
    if m.offset == 0 {
      assert Padded(0, 2) == "00";
      assert Offset(0) == "+00:00";
      assert Replace("+00:00"[6..], "+00:00", "Z") == "";
    }
  }

  // ----- order --------------------------------------------------------------

  /** `s` and `t` sort as `p` and `q` do. */
  predicate Aligned(s: string, t: string, p: nat, q: nat) {
    |s| == |t| && (Less(s, t) <==> p < q) && (s == t <==> p == q)
  }

  lemma {:induction false} PaddedAligned(n: nat, m: nat, w: nat)
    requires n < Pow(10, w) && m < Pow(10, w)
    ensures Aligned(Padded(n, w), Padded(m, w), n, m)
  {
    if w == 0 {
    } else {
      PaddedAligned(n / 10, m / 10, w - 1);
      var c, d := [Decimal(n % 10)], [Decimal(m % 10)];
      assert (Less(c, d) <==> n % 10 < m % 10) && (c == d <==> n % 10 == m % 10);
      LessConcat(Padded(n / 10, w - 1), Padded(m / 10, w - 1), c, d);
      SameConcat(Padded(n / 10, w - 1), Padded(m / 10, w - 1), c, d);
    }
  }

  /** One more field of fixed width. */
  lemma Extend(s: string, t: string, p: nat, q: nat, separator: string, f: nat, g: nat, w: nat, base: nat)
    requires Aligned(s, t, p, q) && base == Pow(10, w) && f < base && g < base
    ensures Aligned(s + (separator + Padded(f, w)), t + (separator + Padded(g, w)), p * base + f, q * base + g)
  {
    PaddedAligned(f, g, w);
    LessIsIrreflexive(separator);
    LessConcat(separator, separator, Padded(f, w), Padded(g, w));
    LessConcat(s, t, separator + Padded(f, w), separator + Padded(g, w));
    FieldOrder(p, q, f, g, base);
    SameConcat(s, t, separator + Padded(f, w), separator + Padded(g, w));
    SameConcat(separator, separator, Padded(f, w), Padded(g, w));
  }

  lemma SameConcat(a: string, b: string, c: string, d: string)
    requires |a| == |b|
    ensures a + c == b + d <==> a == b && c == d
  {
    if a + c == b + d {
      assert a == (a + c)[..|a|] && c == (a + c)[|a|..];
      assert b == (b + d)[..|b|] && d == (b + d)[|b|..];
    }
  }

  lemma FieldOrder(p: nat, q: nat, f: nat, g: nat, base: nat)
    requires f < base && g < base
    ensures p * base + f < q * base + g <==> p < q || (p == q && f < g)
    ensures p * base + f == q * base + g <==> p == q && f == g
  {
    if p < q {
      assert (p + 1) * base <= q * base;
    } else if q < p {
      assert (q + 1) * base <= p * base;
    }
  }

  function DayRank(m: Moment): nat {
    (m.year * 100 + m.month) * 100 + m.day
  }

  /** The fields down to the millisecond as one number. */
  function Rank(m: Moment): nat {
    (((DayRank(m) * 100 + m.hour) * 100 + m.minute) * 100 + m.second) * 1000 + m.microsecond / 1000
  }

  /** Formatted UTC moments sort as strings exactly as the moments do to the
      millisecond, and are equal exactly when these are; the microseconds are cut. */
  lemma FormattedOrder(a: Moment, b: Moment)
    requires Valid(a) && Valid(b) && a.offset == b.offset == 0
    ensures Less(FormatObservedAt(a), FormatObservedAt(b)) <==> Rank(a) < Rank(b)
    ensures FormatObservedAt(a) == FormatObservedAt(b) <==> Rank(a) == Rank(b)
  {
    UtcEndsInZ(a);
    UtcEndsInZ(b);
    LocalTimesAligned(a, b);
    LessConcat(LocalTime(a), LocalTime(b), "Z", "Z");
    SameConcat(LocalTime(a), LocalTime(b), "Z", "Z");
    LessIsIrreflexive("Z");
  }

  lemma DaysAligned(a: Moment, b: Moment)
    requires Valid(a) && Valid(b)
    ensures Aligned(Day(a), Day(b), DayRank(a), DayRank(b))
  {
    assert Pow(10, 2) == 100 && Pow(10, 4) == 10000;
    PaddedAligned(a.year, b.year, 4);
    var s, t, p, q := Padded(a.year, 4), Padded(b.year, 4), a.year, b.year;
    Extend(s, t, p, q, "-", a.month, b.month, 2, 100);
    s, t, p, q := s + ("-" + Padded(a.month, 2)), t + ("-" + Padded(b.month, 2)), p * 100 + a.month, q * 100 + b.month;
    Extend(s, t, p, q, "-", a.day, b.day, 2, 100);
  }

  lemma LocalTimesAligned(a: Moment, b: Moment)
    requires Valid(a) && Valid(b)
    ensures Aligned(LocalTime(a), LocalTime(b), Rank(a), Rank(b))
  {
    assert Pow(10, 2) == 100 && Pow(10, 3) == 1000;
    DaysAligned(a, b);
    var s, t, p, q := Day(a), Day(b), DayRank(a), DayRank(b);
    Extend(s, t, p, q, "T", a.hour, b.hour, 2, 100);
    s, t, p, q := s + ("T" + Padded(a.hour, 2)), t + ("T" + Padded(b.hour, 2)), p * 100 + a.hour, q * 100 + b.hour;
    Extend(s, t, p, q, ":", a.minute, b.minute, 2, 100);
    s, t := s + (":" + Padded(a.minute, 2)), t + (":" + Padded(b.minute, 2));
    p, q := p * 100 + a.minute, q * 100 + b.minute;
    Extend(s, t, p, q, ":", a.second, b.second, 2, 100);
    s, t := s + (":" + Padded(a.second, 2)), t + (":" + Padded(b.second, 2));
    p, q := p * 100 + a.second, q * 100 + b.second;
    Extend(s, t, p, q, ".", a.microsecond / 1000, b.microsecond / 1000, 3, 1000);
  }
}

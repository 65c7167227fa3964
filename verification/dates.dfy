/** Calendar dates as the source handles them: `datetime` values at midnight
    produced by `strptime` from a playlist name's leading `m/d/y` prefix,
    compared chronologically and rendered as ISO `YYYY-MM-DD`. */
module Dates {
  import opened Seqs
  import opened Text
  import opened Sorting

  datatype YearMonthDay = YearMonthDay(year: int, month: int, day: int)
  {
    /** A day `datetime` accepts: years 1..9999 (`MINYEAR`..`MAXYEAR`) and a
        day that exists in its month. */
    predicate Valid()
    {
      1 <= year <= 9999 && 1 <= month <= 12 && 1 <= day <= DaysInMonth(year, month)
    }
  }

  type Date = d: YearMonthDay | d.Valid() witness YearMonthDay(1970, 1, 1)

  predicate IsLeapYear(y: int)
  {
    y % 4 == 0 && (y % 100 != 0 || y % 400 == 0)
  }

  function DaysInMonth(y: int, m: int): (n: int)
    requires 1 <= m <= 12
    ensures 28 <= n <= 31
  {
    if m == 2 then (if IsLeapYear(y) then 29 else 28)
    else if m == 4 || m == 6 || m == 9 || m == 11 then 30
    else 31
  }

  /** `a < b` on datetimes: year, then month, then day. */
  predicate Before(a: Date, b: Date)
  {
    a.year < b.year
    || (a.year == b.year && (a.month < b.month || (a.month == b.month && a.day < b.day)))
  }

  /** `a <= b` on datetimes. */
  predicate NotAfter(a: Date, b: Date)
  {
    !Before(b, a)
  }

  lemma NotAfterTotalOrder()
    ensures forall a: Date, b: Date :: NotAfter(a, b) || NotAfter(b, a)
    ensures forall a: Date, b: Date, c: Date :: NotAfter(a, b) && NotAfter(b, c) ==> NotAfter(a, c)
    ensures forall a: Date, b: Date :: NotAfter(a, b) && NotAfter(b, a) ==> a == b
  {
  }

  /** `date.isoformat()`, which is also `strftime('%Y-%m-%d')` for these
      years: four-digit year, two-digit month and day. */
  function IsoFormat(d: Date): (s: string)
    ensures |s| == 10 && s[4] == '-' && s[7] == '-'
    ensures AllDigits(s[..4]) && AllDigits(s[5..7]) && AllDigits(s[8..])
    ensures ParseDigits(s[..4]) == d.year
    ensures ParseDigits(s[5..7]) == d.month && ParseDigits(s[8..]) == d.day
  {
    var y := ZeroPad(d.year, 4);
    var m := ZeroPad(d.month, 2);
    var dd := ZeroPad(d.day, 2);
    assert |NatToString(d.year)| <= 4 by { DigitsOfSmall(d.year, 4); }
    var s := y + "-" + m + "-" + dd;
    assert s[..4] == y && s[5..7] == m && s[8..] == dd;
    s
  }

  /** A number below `10^k` has at most `k` digits. */
  lemma {:induction false} DigitsOfSmall(n: nat, k: nat)
    requires k >= 1 && n < Pow10(k)
    ensures |NatToString(n)| <= k
  {
    if n >= 10 {
      assert k > 1;
      assert n / 10 < Pow10(k - 1);
      DigitsOfSmall(n / 10, k - 1);
    }
  }

  // ---------------------------------------------------------------------
  // The leading `\d{1,2}/\d{1,2}/\d{2,4}` of a playlist name

  /** The length of the run of ASCII digits that starts `s`. */
  function LeadingDigits(s: string): (n: nat)
    ensures n <= |s| && AllDigits(s[..n])
    ensures n < |s| ==> !IsDigit(s[n])
  {
    if |s| > 0 && IsDigit(s[0]) then
      var n := 1 + LeadingDigits(s[1..]);
      assert forall i :: 1 <= i < n ==> s[..n][i] == s[1..][..n - 1][i - 1];
      n
    else 0
  }

  lemma {:induction false} LeadingDigitsOf(s: string, k: nat)
    requires k <= |s| && AllDigits(s[..k])
    requires k < |s| ==> !IsDigit(s[k])
    ensures LeadingDigits(s) == k
  {
    if k > 0 {
      assert s[1..][..k - 1] == s[..k][1..];
      LeadingDigitsOf(s[1..], k - 1);
    }
  }

  lemma {:induction false} LeadingDigitsAtLeast(s: string, k: nat)
    requires k <= |s| && AllDigits(s[..k])
    ensures LeadingDigits(s) >= k
  {
    if k > 0 {
      assert s[1..][..k - 1] == s[..k][1..];
      assert IsDigit(s[..k][0]);
      LeadingDigitsAtLeast(s[1..], k - 1);
    }
  }

  /** The three groups of a successful match: month, day and year digits. */
  datatype DateFields = DateFields(month: string, day: string, year: string)

  /** The shape of the regex `\d{1,2}/\d{1,2}/\d{2,4}` on its three groups. */
  predicate WellShaped(f: DateFields)
  {
    && 1 <= |f.month| <= 2 && AllDigits(f.month)
    && 1 <= |f.day| <= 2 && AllDigits(f.day)
    && 2 <= |f.year| <= 4 && AllDigits(f.year)
  }

  function Rendered(f: DateFields): string
  {
    f.month + "/" + f.day + "/" + f.year
  }

  /** `re.match(r'^(\d{1,2}/\d{1,2}/\d{2,4})', name)`. A one- or two-digit
      group must be the whole leading digit run, since the character after
      it must be `/`; the year takes up to four digits greedily. */
  function MatchDatePrefix(name: string): (r: Option<DateFields>)
    ensures r.Some? ==> WellShaped(r.value) && Rendered(r.value) <= name
  {
    var a := LeadingDigits(name);
    if !(1 <= a <= 2 && a < |name| && name[a] == '/') then None
    else
      var rest := name[a + 1..];
      var b := LeadingDigits(rest);
      if !(1 <= b <= 2 && b < |rest| && rest[b] == '/') then None
      else
        var tail := rest[b + 1..];
        var c := LeadingDigits(tail);
        if c < 2 then None
        else
          var y := if c <= 4 then c else 4;
          MatchedGroups(name, a, b, y);
          Some(DateFields(name[..a], rest[..b], tail[..y]))
  }

  /** The groups `MatchDatePrefix` cuts out are well shaped and spell a
      prefix of the name. */
  lemma MatchedGroups(name: string, a: nat, b: nat, y: nat)
    requires 1 <= a <= 2 && a < |name| && name[a] == '/' && AllDigits(name[..a])
    requires 1 <= b <= 2 && b < |name[a + 1..]| && name[a + 1..][b] == '/'
    requires AllDigits(name[a + 1..][..b])
    requires 2 <= y <= 4 && y <= |name[a + 1..][b + 1..]|
    requires AllDigits(name[a + 1..][b + 1..][..LeadingDigits(name[a + 1..][b + 1..])])
    requires y <= LeadingDigits(name[a + 1..][b + 1..])
    ensures var f := DateFields(name[..a], name[a + 1..][..b], name[a + 1..][b + 1..][..y]);
      WellShaped(f) && Rendered(f) <= name
  {
    var rest := name[a + 1..];
    var tail := rest[b + 1..];
    var c := LeadingDigits(tail);
    assert forall i :: 0 <= i < y ==> tail[..y][i] == tail[..c][i];
    var f := DateFields(name[..a], rest[..b], tail[..y]);
    var n := a + 1 + b + 1 + y;
    assert Rendered(f) == name[..n];
  }

  /** Every name that starts with a well-shaped `m/d/y` is matched, with its
      month and day groups and at least its year digits. */
  lemma MatchDatePrefixComplete(name: string, f: DateFields)
    requires WellShaped(f) && Rendered(f) <= name
    ensures MatchDatePrefix(name).Some?
    ensures MatchDatePrefix(name).value.month == f.month
    ensures MatchDatePrefix(name).value.day == f.day
    ensures f.year <= MatchDatePrefix(name).value.year
  {
    var m, d, y := f.month, f.day, f.year;
    var a := |m|;
    assert name[..a] == m;
    assert name[a] == '/';
    LeadingDigitsOf(name, a);
    var rest := name[a + 1..];
    assert rest[..|d|] == d;
    assert rest[|d|] == '/';
    LeadingDigitsOf(rest, |d|);
    var tail := rest[|d| + 1..];
    assert tail[..|y|] == y;
    LeadingDigitsAtLeast(tail, |y|);
  }

  // ---------------------------------------------------------------------
  // strptime

  /** `%y`: 69..99 are 1969..1999, 00..68 are 2000..2068. */
  function TwoDigitYear(v: nat): int
  {
    if v <= 68 then 2000 + v else 1900 + v
  }

  /** `datetime.strptime(date_str, "%m/%d/%Y")` when `fourDigits`, else with
      `"%m/%d/%y"`; `None` where it raises `ValueError`. `%m` accepts the
      values 1..12 and `%d` the values 1..31, `%Y` exactly four digits and
      `%y` exactly two; the date must then exist. */
  function Strptime(f: DateFields, fourDigits: bool): (r: Option<Date>)
    requires WellShaped(f)
    ensures r.Some? ==> ParseDigits(f.month) == r.value.month && ParseDigits(f.day) == r.value.day
    ensures r.Some? && fourDigits ==> |f.year| == 4 && ParseDigits(f.year) == r.value.year
    ensures r.Some? && !fourDigits ==> |f.year| == 2 && TwoDigitYear(ParseDigits(f.year)) == r.value.year
  {
    var m := ParseDigits(f.month);
    var d := ParseDigits(f.day);
    if !(1 <= m <= 12 && 1 <= d <= 31) then None
    else if fourDigits && |f.year| != 4 then None
    else if !fourDigits && |f.year| != 2 then None
    else
      var y := if fourDigits then ParseDigits(f.year) else TwoDigitYear(ParseDigits(f.year));
      var ymd := YearMonthDay(y, m, d);
      if ymd.Valid() then Some(ymd) else None
  }

  /** The date a playlist name starts with: the regex prefix, then
      `%m/%d/%Y`, then `%m/%d/%y`; `None` if there is no prefix or neither
      format accepts it. */
  function ParseNameDate(name: string): (r: Option<Date>)
    ensures MatchDatePrefix(name).None? ==> r.None?
    ensures r.Some? ==>
      var f := MatchDatePrefix(name).value;
      && ParseDigits(f.month) == r.value.month
      && ParseDigits(f.day) == r.value.day
      && ((|f.year| == 4 && ParseDigits(f.year) == r.value.year)
          || (|f.year| == 2 && TwoDigitYear(ParseDigits(f.year)) == r.value.year))
  {
    match MatchDatePrefix(name)
    case None => None
    case Some(f) =>
      var four := Strptime(f, true);
      if four.Some? then four else Strptime(f, false)
  }

  /** The two formats never both accept the same text, so trying `%Y` first
      decides nothing: a four-digit year can only be read by `%Y` and a
      two-digit one only by `%y`. */
  lemma FormatsExclusive(f: DateFields)
    requires WellShaped(f)
    ensures Strptime(f, true).Some? ==> Strptime(f, false).None?
    ensures Strptime(f, true).Some? <==> |f.year| == 4 && StrptimeAccepts(f, ParseDigits(f.year))
    ensures Strptime(f, false).Some? <==> |f.year| == 2 && StrptimeAccepts(f, TwoDigitYear(ParseDigits(f.year)))
  {
  }

  /** Month and day groups name a real day of year `y`. */
  predicate StrptimeAccepts(f: DateFields, y: int)
    requires WellShaped(f)
  {
    var m := ParseDigits(f.month);
    var d := ParseDigits(f.day);
    1 <= y <= 9999 && 1 <= m <= 12 && 1 <= d <= DaysInMonth(y, m)
  }

  /** A name that starts with well-shaped groups is matched with exactly
      those groups when the year group cannot grow: it has four digits or
      is followed by a non-digit. */
  lemma MatchDatePrefixExact(name: string, f: DateFields)
    requires WellShaped(f) && Rendered(f) <= name
    requires |f.year| < 4 && |Rendered(f)| < |name| ==> !IsDigit(name[|Rendered(f)|])
    ensures MatchDatePrefix(name) == Some(f)
  {
    MatchDatePrefixComplete(name, f);
    var g := MatchDatePrefix(name).value;
    var k := |f.month| + |f.day| + 2;
    assert |Rendered(f)| == k + |f.year|;
    assert forall i :: 0 <= i < |g.year| ==> name[k + i] == g.year[i] && IsDigit(g.year[i]);
    assert |g.year| == |f.year|;
    assert g.year == g.year[..|f.year|] == f.year;
  }

  /** A name made of `str(month)/str(day)/<4-digit year>` followed by anything
      yields exactly that date. */
  lemma ParseNameDateFourDigitYear(d: Date, rest: string)
    ensures ParseNameDate(NatToString(d.month) + "/" + NatToString(d.day) + "/" + ZeroPad(d.year, 4) + rest)
            == Some(d)
  {
    DigitsOfSmall(d.year, 4);
    var f := DateFields(NatToString(d.month), NatToString(d.day), ZeroPad(d.year, 4));
    MatchDatePrefixExact(Rendered(f) + rest, f);
    ParseNatToString(d.month);
    ParseNatToString(d.day);
  }

  /** A name made of `str(month)/str(day)/<2-digit year>` followed by a
      non-digit (or nothing) yields that date when the year is one `%y`
      produces, 1969..2068. */
  lemma ParseNameDateTwoDigitYear(d: Date, rest: string)
    requires 1969 <= d.year <= 2068
    requires |rest| > 0 ==> !IsDigit(rest[0])
    ensures ParseNameDate(NatToString(d.month) + "/" + NatToString(d.day) + "/" + ZeroPad(d.year % 100, 2) + rest)
            == Some(d)
  {
    var y := ZeroPad(d.year % 100, 2);
    assert |y| == 2 by { DigitsOfSmall(d.year % 100, 2); }
    var f := DateFields(NatToString(d.month), NatToString(d.day), y);
    var name := Rendered(f) + rest;
    assert |rest| > 0 ==> name[|Rendered(f)|] == rest[0];
    MatchDatePrefixExact(name, f);
    ParseNatToString(d.month);
    ParseNatToString(d.day);
    TwoDigitYearOf(d.year);
    assert Strptime(f, true).None?;
    assert Strptime(f, false) == Some(d);
  }

  /** `%y` reads back the last two digits of every year 1969..2068. */
  lemma TwoDigitYearOf(y: int)
    requires 1969 <= y <= 2068
    ensures TwoDigitYear(y % 100) == y
  {
    if y < 2000 {
      assert y % 100 == y - 1900;
    } else {
      assert y % 100 == y - 2000;
    }
  }

  /** Three-digit years match the regex but no format accepts them. */
  lemma ThreeDigitYearRejected(name: string)
    requires MatchDatePrefix(name).Some? && |MatchDatePrefix(name).value.year| == 3
    ensures ParseNameDate(name).None?
  {
  }
}

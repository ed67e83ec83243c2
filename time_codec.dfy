/** Integer time arithmetic of the track tools: the civil-date to day-count
    conversion behind `timegm`, whole-second durations and their `H:MM:SS`
    text, and the six-digit microsecond tail of a UTC timestamp.
    Time points are whole microseconds since 1970-01-01T00:00:00Z. */
module TimeCodec {
  import opened Numeric

  const MicrosPerSecond: int := 1000000

  // ---------------------------------------------------------------------
  // Days from the civil date (Howard Hinnant's days_from_civil)
  // ---------------------------------------------------------------------

  /** The year counted from March, so that the leap day ends the year. */
  function ShiftedYear(y: int, m: int): int {
    if m <= 2 then y - 1 else y
  }

  /** Day within the March-based year: 0 for 1 March, 365 for 29 February. */
  function DayOfYear(m: int, d: int): (doy: int)
    ensures 1 <= m <= 12 && 1 <= d <= 31 && (m == 2 ==> d <= 29) ==> 0 <= doy <= 365
  {
    TDiv(153 * (m + (if m > 2 then -3 else 9)) + 2, 5) + d - 1
  }

  /** Day within the 400-year era of a day `doy` of era year `yoe`. */
  function DayOfEra(yoe: int, doy: int): (doe: int)
    ensures 0 <= yoe <= 399 && 0 <= doy <= 365 ==> 0 <= doe <= 146096
  {
    yoe * 365 + TDiv(yoe, 4) - TDiv(yoe, 100) + doy
  }

  /** Year within the era when the era is found by truncating division. */
  function YearOfEra(yp: int): (yoe: int)
    ensures yp >= 0 ==> 0 <= yoe <= 399
    ensures -399 <= yp < 0 ==> yoe == yp
  {
    yp - TDiv(yp, 400) * 400
  }

  /** `internal::days_from_epoch` as written: the era is `y / 400` with C++
      truncating division, without the original algorithm's adjustment for
      negative shifted years. */
  function DaysFromEpoch(y: int, m: int, d: int): int {
    var yp := ShiftedYear(y, m);
    var era := TDiv(yp, 400);
    var yoe := YearOfEra(yp);
    era * 146097 + DayOfEra(yoe, DayOfYear(m, d)) - 719468
  }

  /** The algorithm as published: the era is the floor of `y / 400`, so the
      year of era is in [0, 399] for every year, negative ones included. */
  function DaysFromCivil(y: int, m: int, d: int): int {
    var yp := ShiftedYear(y, m);
    (yp / 400) * 146097 + DayOfEra(yp % 400, DayOfYear(m, d)) - 719468
  }

  predicate IsLeapYear(y: int) {
    y % 4 == 0 && (y % 100 != 0 || y % 400 == 0)
  }

  function DaysInMonth(y: int, m: int): int
    requires 1 <= m <= 12
  {
    if m == 2 then (if IsLeapYear(y) then 29 else 28)
    else if m == 4 || m == 6 || m == 9 || m == 11 then 30
    else 31
  }

  /** Days from 1 March of year 0 to 1 March of year `yp` (proleptic Gregorian). */
  function MarchDays(yp: int): int {
    365 * yp + yp / 4 - yp / 100 + yp / 400
  }

  lemma {:induction false} EraSplit(yp: int)
    ensures (yp / 400) * 146097 + DayOfEra(yp % 400, 0) == MarchDays(yp)
  {
    var q, r := yp / 400, yp % 400;
    assert yp == 400 * q + r && 0 <= r < 400;
    assert yp / 4 == 100 * q + r / 4;
    assert yp / 100 == 4 * q + r / 100;
    assert TDiv(r, 4) == r / 4 && TDiv(r, 100) == r / 100;
  }

  lemma {:induction false} MarchYearLength(yp: int)
    ensures MarchDays(yp + 1) - MarchDays(yp) == if IsLeapYear(yp + 1) then 366 else 365
  {
    var n := yp + 1;
    assert n / 4 - yp / 4 == if n % 4 == 0 then 1 else 0;
    assert n / 100 - yp / 100 == if n % 100 == 0 then 1 else 0;
    assert n / 400 - yp / 400 == if n % 400 == 0 then 1 else 0;
    if n % 400 == 0 {
      assert n % 100 == 0 && n % 4 == 0;
    } else if n % 100 == 0 {
      assert n % 4 == 0;
    }
  }

  /** The day count is the number of days before the March-based year plus
      the day within it. */
  lemma CivilSplit(y: int, m: int, d: int)
    ensures DaysFromCivil(y, m, d) == MarchDays(ShiftedYear(y, m)) + DayOfYear(m, d) - 719468
  {
    var yp := ShiftedYear(y, m);
    EraSplit(yp);
    assert DayOfEra(yp % 400, DayOfYear(m, d)) == DayOfEra(yp % 400, 0) + DayOfYear(m, d);
  }

  /** 1 January 1970 is day 0. */
  lemma CivilEpoch()
    ensures DaysFromCivil(1970, 1, 1) == 0
  {
    assert ShiftedYear(1970, 1) == 1969 && 1969 / 400 == 4 && 1969 % 400 == 369;
    assert DayOfYear(1, 1) == 306;
    assert DayOfEra(369, 306) == 135080;
  }

  /** Consecutive 1 Januaries are a year of 365 or 366 days apart, for every
      year: an independent statement of the Gregorian leap rule. */
  lemma {:induction false} CivilYearLength(y: int)
    ensures DaysFromCivil(y + 1, 1, 1) - DaysFromCivil(y, 1, 1) == if IsLeapYear(y) then 366 else 365
  {
    CivilSplit(y + 1, 1, 1);
    CivilSplit(y, 1, 1);
    MarchYearLength(y - 1);
  }

  /** Where each month starts in the March-based year. */
  lemma MonthStart(m: int)
    requires 1 <= m <= 12
    ensures DayOfYear(m, 1) == [306, 337, 0, 31, 61, 92, 122, 153, 184, 214, 245, 275][m - 1]
  {
  }

  /** Outside February, consecutive month starts lie in one March-based
      year, as many days apart as the earlier month has. */
  lemma MonthGap(m: int)
    requires 1 <= m <= 11 && m != 2
    ensures DayOfYear(m + 1, 1) - DayOfYear(m, 1) == if m == 4 || m == 6 || m == 9 || m == 11 then 30 else 31
  {
    MonthStart(m);
    MonthStart(m + 1);
  }

  /** The first day of the next month is as many days later as the month has. */
  lemma {:induction false} CivilMonthLength(y: int, m: int)
    requires 1 <= m <= 12
    ensures m < 12 ==> DaysFromCivil(y, m + 1, 1) - DaysFromCivil(y, m, 1) == DaysInMonth(y, m)
    ensures m == 12 ==> DaysFromCivil(y + 1, 1, 1) - DaysFromCivil(y, 12, 1) == 31
  {
    if m == 12 {
      MonthStart(12);
      MonthStart(1);
      CivilSplit(y + 1, 1, 1);
      CivilSplit(y, 12, 1);
    } else if m == 2 {
      MonthStart(2);
      MonthStart(3);
      CivilSplit(y, 3, 1);
      CivilSplit(y, 2, 1);
      MarchYearLength(y - 1);
    } else {
      MonthGap(m);
      CivilSplit(y, m + 1, 1);
      CivilSplit(y, m, 1);
    }
  }

  /** From 1 March of year 0 onwards the code as written agrees with the
      published algorithm: truncating and floor division coincide there. */
  lemma {:induction false} EpochAgreesWithCivil(y: int, m: int, d: int)
    requires ShiftedYear(y, m) >= 0
    ensures DaysFromEpoch(y, m, d) == DaysFromCivil(y, m, d)
  {
    var yp := ShiftedYear(y, m);
    assert TDiv(yp, 400) == yp / 400;
    assert YearOfEra(yp) == yp % 400;
  }

  /** `days_from_epoch(1970, 1, 1) == 0`, and from year 1 on the month and
      year lengths of the code as written are the Gregorian ones. */
  lemma {:induction false} EpochCalendar(y: int, m: int)
    requires y >= 1 && 1 <= m <= 12
    ensures DaysFromEpoch(1970, 1, 1) == 0
    ensures DaysFromEpoch(y + 1, 1, 1) - DaysFromEpoch(y, 1, 1) == if IsLeapYear(y) then 366 else 365
    ensures m < 12 ==> DaysFromEpoch(y, m + 1, 1) - DaysFromEpoch(y, m, 1) == DaysInMonth(y, m)
  {
    EpochAgreesWithCivil(1970, 1, 1);
    CivilEpoch();
    EpochAgreesWithCivil(y + 1, 1, 1);
    EpochAgreesWithCivil(y, 1, 1);
    CivilYearLength(y);
    if m < 12 {
      EpochAgreesWithCivil(y, m + 1, 1);
      EpochAgreesWithCivil(y, m, 1);
      CivilMonthLength(y, m);
    }
  }

  lemma EpochMarchYearZero()
    ensures DaysFromEpoch(0, 3, 1) == -719468
  {
  }

  lemma EpochFebruaryYearZero()
    ensures DaysFromEpoch(0, 2, 1) == -719496
  {
  }

  lemma EpochFebruaryYearZeroLength()
    ensures DaysFromEpoch(0, 3, 1) - DaysFromEpoch(0, 2, 1) == 28
  {
    EpochMarchYearZero();
    EpochFebruaryYearZero();
  }

  lemma FebruaryYearZero()
    ensures DaysInMonth(0, 2) == 29
  {
  }

  lemma CivilFebruaryYearZeroLength()
    ensures DaysFromCivil(0, 3, 1) - DaysFromCivil(0, 2, 1) == 29
  {
    CivilMonthLength(0, 2);
    FebruaryYearZero();
  }

  /** The truncating era puts 1 January to 1 March of year 0 in the wrong
      era: February of the leap year 0 comes out 28 days long. */
  lemma EpochMissesLeapDayOfYearZero()
    ensures DaysFromEpoch(0, 3, 1) - DaysFromEpoch(0, 2, 1) == 28
    ensures DaysInMonth(0, 2) == 29
    ensures DaysFromCivil(0, 3, 1) - DaysFromCivil(0, 2, 1) == 29
  {
    EpochFebruaryYearZeroLength();
    FebruaryYearZero();
    CivilFebruaryYearZeroLength();
  }

  // ---------------------------------------------------------------------
  // timegm
  // ---------------------------------------------------------------------

  /** The fields of `struct tm` that `timegm` reads; `year` counts from 1900
      and `mon` from 0, and neither is required to be in range. */
  datatype Tm = Tm(year: int, mon: int, mday: int, hour: int, min: int, sec: int)

  /** The first part of `internal::timegm`: carries whole years out of
      `tm_mon` until it is in 0..11. The month count is unchanged, so the
      result is the floor division of it by 12 and its remainder. */
  method CarryMonths(fullYear: int, mon: int) returns (year: int, month: int)
    ensures year == (fullYear * 12 + mon) / 12 && month == (fullYear * 12 + mon) % 12
  {
    year, month := fullYear, mon;
    if month > 11 {
      year := year + TDiv(month, 12);
      month := TMod(month, 12);
    } else if month < 0 {
      var yearsDiff := TDiv(11 - month, 12);
      year := year - yearsDiff;
      month := month + 12 * yearsDiff;
    }
    assert 0 <= month < 12 && year * 12 + month == fullYear * 12 + mon;
  }

  /** `internal::timegm`: the month carried into the year, then seconds
      counted from the day number. */
  method Timegm(t: Tm) returns (secs: int)
    ensures var months := (t.year + 1900) * 12 + t.mon;
      secs == 60 * (60 * (24 * DaysFromEpoch(months / 12, months % 12 + 1, t.mday) + t.hour) + t.min) + t.sec
  {
    var year, month := CarryMonths(t.year + 1900, t.mon);
    var daysSinceEpoch := DaysFromEpoch(year, month + 1, t.mday);
    secs := 60 * (60 * (24 * daysSinceEpoch + t.hour) + t.min) + t.sec;
  }

  // ---------------------------------------------------------------------
  // Durations
  // ---------------------------------------------------------------------

  /** `duration_to_seconds`: the difference truncated toward zero to whole seconds. */
  function DurationToSeconds(t1: int, t2: int): (secs: int)
    ensures t1 <= t2 ==> 0 <= secs * MicrosPerSecond <= t2 - t1 < (secs + 1) * MicrosPerSecond
    ensures t2 < t1 ==> (secs - 1) * MicrosPerSecond < t2 - t1 <= secs * MicrosPerSecond
  {
    TDiv(t2 - t1, MicrosPerSecond)
  }

  // ---------------------------------------------------------------------
  // Decimal text of integers, as printed by an output stream
  // ---------------------------------------------------------------------

  predicate IsDigit(c: char) {
    '0' <= c <= '9'
  }

  predicate AllDigits(s: string) {
    forall i | 0 <= i < |s| :: IsDigit(s[i])
  }

  function DigitChar(n: int): (c: char)
    requires 0 <= n < 10
    ensures IsDigit(c)
  {
    (48 + n) as char
  }

  /** The number a string of decimal digits denotes, read most significant first. */
  function DigitsValue(s: string): nat
    requires AllDigits(s)
  {
    if s == [] then 0 else DigitsValue(s[..|s| - 1]) * 10 + (s[|s| - 1] as int - 48)
  }

  function Pow10(k: nat): (p: nat)
    ensures p >= 1
  {
    if k == 0 then 1 else 10 * Pow10(k - 1)
  }

  /** Shortest decimal text of `n`; reading it back gives `n`. */
  function NatToStr(n: nat): (s: string)
    ensures AllDigits(s) && DigitsValue(s) == n
    ensures 1 <= |s| && (n < 10 <==> |s| == 1)
    decreases n
  {
    if n < 10 then [DigitChar(n)]
    else
      var s := NatToStr(n / 10) + [DigitChar(n % 10)];
      assert s[..|s| - 1] == NatToStr(n / 10);
      s
  }

  lemma {:induction false} NatToStrLength(n: nat, k: nat)
    requires n < Pow10(k) && k >= 1
    ensures |NatToStr(n)| <= k
    decreases n
  {
    if n >= 10 {
      NatToStrLength(n / 10, k - 1);
    }
  }

  /** `operator<<` on an integer: a minus sign for negative values. */
  function IntToStr(i: int): string {
    if i < 0 then "-" + NatToStr(-i) else NatToStr(i)
  }

  function Zeros(k: nat): (z: string)
    ensures |z| == k && AllDigits(z)
  {
    if k == 0 then "" else Zeros(k - 1) + "0"
  }

  lemma {:induction false} ZerosAreZeros(k: nat)
    ensures forall i | 0 <= i < k :: Zeros(k)[i] == '0'
  {
    if k > 0 {
      ZerosAreZeros(k - 1);
    }
  }

  /** `std::setw(w) << std::setfill('0')` with the default right alignment:
      zeros are put in front of the whole text until it is `w` long. */
  function PadLeft(s: string, w: nat): (r: string)
    ensures |r| == if |s| >= w then |s| else w
    ensures |s| >= w ==> r == s
  {
    if |s| >= w then s else Zeros(w - |s|) + s
  }

  /** The padded text ends in the whole text, and what `setfill('0')` puts
      in front of it is zeros only. */
  lemma PadLeftShape(s: string, w: nat)
    ensures PadLeft(s, w)[|PadLeft(s, w)| - |s|..] == s
    ensures forall i | 0 <= i < |PadLeft(s, w)| - |s| :: PadLeft(s, w)[i] == '0'
  {
    if |s| < w {
      ZerosAreZeros(w - |s|);
    }
  }

  /** Leading zeros do not change the value of a digit string. */
  lemma {:induction false} LeadingZerosValue(k: nat, s: string)
    requires AllDigits(s)
    ensures AllDigits(Zeros(k) + s) && DigitsValue(Zeros(k) + s) == DigitsValue(s)
    decreases k, |s|
  {
    var z := Zeros(k) + s;
    if s == [] {
      assert z == Zeros(k);
      if k > 0 {
        assert z[..|z| - 1] == Zeros(k - 1) + [];
        LeadingZerosValue(k - 1, []);
      }
    } else {
      assert z[..|z| - 1] == Zeros(k) + s[..|s| - 1];
      assert z[|z| - 1] == s[|s| - 1];
      LeadingZerosValue(k, s[..|s| - 1]);
    }
  }

  /** Two-digit zero-padded text of a value below 100. */
  lemma PadTwoReadsBack(n: int)
    requires 0 <= n < 100
    ensures var r := PadLeft(IntToStr(n), 2); |r| == 2 && AllDigits(r) && DigitsValue(r) == n
  {
    NatToStrLength(n, 2);
    LeadingZerosValue(2 - |NatToStr(n)|, NatToStr(n));
  }

  /** `duration_to_str`: hours, then minutes and seconds zero-padded to two
      digits, from the whole-second difference. */
  function DurationToStr(t1: int, t2: int): string {
    var secs := DurationToSeconds(t1, t2);
    var hours := TDiv(secs, 3600);
    var rest := TMod(secs, 3600);
    var minutes := TDiv(rest, 60);
    var seconds := TMod(rest, 60);
    IntToStr(hours) + ":" + PadLeft(IntToStr(minutes), 2) + ":" + PadLeft(IntToStr(seconds), 2)
  }

  /** For a non-negative duration the text is `H:MM:SS`: reading its three
      digit fields back gives minutes and seconds below 60 that, with the
      hours, add up to the whole-second duration. */
  lemma DurationTextReadsBack(t1: int, t2: int)
    requires t1 <= t2
    ensures var r := DurationToStr(t1, t2);
      && |r| >= 7 && r[|r| - 6] == ':' && r[|r| - 3] == ':'
      && AllDigits(r[..|r| - 6]) && AllDigits(r[|r| - 5..|r| - 3]) && AllDigits(r[|r| - 2..])
      && DigitsValue(r[|r| - 5..|r| - 3]) < 60 && DigitsValue(r[|r| - 2..]) < 60
      && 3600 * DigitsValue(r[..|r| - 6]) + 60 * DigitsValue(r[|r| - 5..|r| - 3]) + DigitsValue(r[|r| - 2..])
         == DurationToSeconds(t1, t2)
  {
    var secs := DurationToSeconds(t1, t2);
    var hours := TDiv(secs, 3600);
    var rest := TMod(secs, 3600);
    var minutes := TDiv(rest, 60);
    var seconds := TMod(rest, 60);
    assert secs == hours * 3600 + rest;
    assert rest == minutes * 60 + seconds;
    PadTwoReadsBack(minutes);
    PadTwoReadsBack(seconds);
    var h, mm, ss := IntToStr(hours), PadLeft(IntToStr(minutes), 2), PadLeft(IntToStr(seconds), 2);
    assert DurationToStr(t1, t2) == h + ":" + mm + ":" + ss;
    ThreeFields(h, mm, ss);
  }

  /** Where the fields of `h:mm:ss` sit, counted from the end. */
  lemma ThreeFields(h: string, mm: string, ss: string)
    requires |h| >= 1 && |mm| == 2 && |ss| == 2
    ensures var r := h + ":" + mm + ":" + ss;
      && |r| >= 7 && r[|r| - 6] == ':' && r[|r| - 3] == ':'
      && r[..|r| - 6] == h && r[|r| - 5..|r| - 3] == mm && r[|r| - 2..] == ss
  {
    var r := h + ":" + mm + ":" + ss;
    assert r[..|r| - 6] == h;
    assert r[|r| - 5..|r| - 3] == mm;
    assert r[|r| - 2..] == ss;
  }

  // ---------------------------------------------------------------------
  // UTC timestamp text
  // ---------------------------------------------------------------------

  /** The fractional tail `time_to_str_utc` appends: a point, the microsecond
      count zero-padded to six places, and `Z`. */
  function FractionSuffix(us: int): string {
    "." + PadLeft(IntToStr(us), 6) + "Z"
  }

  lemma FractionSuffixReadsBack(us: int)
    requires 0 <= us < MicrosPerSecond
    ensures var r := FractionSuffix(us);
      |r| == 8 && r[0] == '.' && r[7] == 'Z' && AllDigits(r[1..7]) && DigitsValue(r[1..7]) == us
  {
    NatToStrLength(us, 6);
    LeadingZerosValue(6 - |NatToStr(us)|, NatToStr(us));
    var r := FractionSuffix(us);
    assert r[1..7] == PadLeft(IntToStr(us), 6);
  }

  /** The suffix never contains markup brackets, whatever the count. */
  lemma FractionSuffixIsPlain(us: int)
    ensures '<' !in FractionSuffix(us) && '>' !in FractionSuffix(us)
  {
    var s := IntToStr(us);
    var digits := NatToStr(if us < 0 then -us else us);
    assert forall i | 0 <= i < |digits| :: IsDigit(digits[i]);
    assert forall i | 0 <= i < |s| :: IsDigit(s[i]) || s[i] == '-';
    var p := PadLeft(s, 6);
    assert forall i | 0 <= i < |p| :: IsDigit(p[i]) || p[i] == '-';
  }

  /** `time_to_str_utc`: the calendar text of the whole seconds (`gmtime`
      and `put_time`, a parameter here) followed by the microsecond tail.
      The whole seconds are the time truncated toward zero. */
  function TimeToStrUtc(civil: int -> string, t: int): string {
    var epochSeconds := TDiv(t, MicrosPerSecond);
    civil(epochSeconds) + FractionSuffix(t - epochSeconds * MicrosPerSecond)
  }

  /** For a time after the epoch the text ends in `.` and six digits that
      read back as the microseconds within the second. */
  lemma TimeTextFraction(civil: int -> string, t: int)
    requires t >= 0
    ensures var r := TimeToStrUtc(civil, t);
      && |r| >= 8 && r[..|r| - 8] == civil(t / MicrosPerSecond)
      && r[|r| - 8] == '.' && r[|r| - 1] == 'Z'
      && AllDigits(r[|r| - 7..|r| - 1]) && DigitsValue(r[|r| - 7..|r| - 1]) == t % MicrosPerSecond
  {
    var us := t - TDiv(t, MicrosPerSecond) * MicrosPerSecond;
    assert us == t % MicrosPerSecond;
    FractionSuffixReadsBack(us);
    SuffixFields(civil(t / MicrosPerSecond), FractionSuffix(us));
  }

  /** Where an eight-character tail sits in `c + f`. */
  lemma SuffixFields(c: string, f: string)
    requires |f| == 8
    ensures var r := c + f;
      && |r| >= 8 && r[..|r| - 8] == c && r[|r| - 8] == f[0] && r[|r| - 1] == f[7]
      && r[|r| - 7..|r| - 1] == f[1..7]
  {
    var r := c + f;
    assert r[..|r| - 8] == c;
    assert r[|r| - 7..|r| - 1] == f[1..7];
  }
}

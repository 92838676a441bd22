/**
  The date utilities of `src/utils/DateFormatting.ts`: conversion between a
  calendar date and its `YYYY-MM-DD` string (the `full-date` of RFC 3339
  section 5.6), and stepping a date string by one day.

  The device is taken to run in UTC, so `new Date("YYYY-MM-DD")`, `setDate` and
  `toISOString` all work on the same calendar date. A JavaScript `Date` object is
  the class `JsDate`: its UTC calendar date and the milliseconds since midnight.
 */
module DateFormatting {
  import opened Wrappers
  import opened Calendar

  // ---------------------------------------------------------------------------
  // Decimal digits

  predicate IsDigit(c: char) {
    '0' <= c <= '9'
  }

  predicate AllDigits(s: string) {
    forall i :: 0 <= i < |s| ==> IsDigit(s[i])
  }

  function DigitChar(n: int): (c: char)
    requires 0 <= n <= 9
    ensures IsDigit(c)
  {
    ('0' as int + n) as char
  }

  function DigitValue(c: char): (n: int)
    requires IsDigit(c)
    ensures 0 <= n <= 9
  {
    c as int - '0' as int
  }

  function Pow10(w: nat): (p: nat)
    ensures p >= 1
  {
    if w == 0 then 1 else 10 * Pow10(w - 1)
  }

  /** The `width` low-order decimal digits of `n`, most significant first, zero-padded. */
  function Pad(n: nat, width: nat): (s: string)
    ensures |s| == width && AllDigits(s)
  {
    if width == 0 then "" else Pad(n / 10, width - 1) + [DigitChar(n % 10)]
  }

  /** The number a string of decimal digits denotes. */
  function DecimalValue(s: string): (n: nat)
    requires AllDigits(s)
    ensures n < Pow10(|s|)
  {
    if s == "" then 0 else 10 * DecimalValue(s[..|s| - 1]) + DigitValue(s[|s| - 1])
  }

  /** Reading back a padded number gives the number, when it fits the width. */
  lemma {:induction false} DecimalOfPad(n: nat, width: nat)
    requires n < Pow10(width)
    ensures DecimalValue(Pad(n, width)) == n
  {
    if width > 0 {
      var s := Pad(n, width);
      assert s[..|s| - 1] == Pad(n / 10, width - 1);
      DecimalOfPad(n / 10, width - 1);
    }
  }

  /** Padding the value of a digit string to its own length gives the string back. */
  lemma {:induction false} PadOfDecimal(s: string)
    requires AllDigits(s)
    ensures Pad(DecimalValue(s), |s|) == s
  {
    if s != "" {
      var init := s[..|s| - 1];
      var n, v, d := DecimalValue(s), DecimalValue(init), DigitValue(s[|s| - 1]);
      assert n == 10 * v + d;
      DivisionOf(n, 10, v, d);
      assert Pad(n, |s|) == Pad(v, |init|) + [DigitChar(d)];
      assert DigitChar(d) == s[|s| - 1];
      PadOfDecimal(init);
      assert s == init + [s[|s| - 1]];
    }
  }

  // ---------------------------------------------------------------------------
  // String order: JavaScript compares strings code unit by code unit, and a proper
  // prefix sorts first.

  predicate LexLess(a: string, b: string) {
    if b == "" then false
    else if a == "" then true
    else if a[0] != b[0] then a[0] < b[0]
    else LexLess(a[1..], b[1..])
  }

  /** Comparing two concatenations whose first parts have equal length. */
  lemma {:induction false} LexLessAppend(x: string, y: string, u: string, v: string)
    requires |x| == |y|
    ensures LexLess(x + u, y + v) == if x == y then LexLess(u, v) else LexLess(x, y)
  {
    if x != "" {
      assert (x + u)[1..] == x[1..] + u && (y + v)[1..] == y[1..] + v;
      LexLessAppend(x[1..], y[1..], u, v);
      if x[0] == y[0] && x[1..] == y[1..] {
        assert x == y;
      }
    } else {
      assert x + u == u && y + v == v;
    }
  }

  /** Fixed-width zero padding preserves numeric order. */
  lemma {:induction false} PadOrder(a: nat, b: nat, width: nat)
    requires a < Pow10(width) && b < Pow10(width)
    ensures LexLess(Pad(a, width), Pad(b, width)) <==> a < b
  {
    if width > 0 {
      var ha, hb := Pad(a / 10, width - 1), Pad(b / 10, width - 1);
      var da, db := [DigitChar(a % 10)], [DigitChar(b % 10)];
      assert Pad(a, width) == ha + da && Pad(b, width) == hb + db;
      LexLessAppend(ha, hb, da, db);
      assert a / 10 < Pow10(width - 1) && b / 10 < Pow10(width - 1);
      PadOrder(a / 10, b / 10, width - 1);
      DecimalOfPad(a / 10, width - 1);
      DecimalOfPad(b / 10, width - 1);
      assert LexLess(da, db) <==> a % 10 < b % 10 by {
        assert da[1..] == [] && db[1..] == [];
      }
      DigitOrder(a, b);
    }
  }

  /** Numbers compare by their leading digits first, then by their last digit. */
  lemma DigitOrder(a: nat, b: nat)
    ensures a < b <==> a / 10 < b / 10 || (a / 10 == b / 10 && a % 10 < b % 10)
  {
    assert a == 10 * (a / 10) + a % 10 && b == 10 * (b / 10) + b % 10;
    if a / 10 < b / 10 {
      MultiplyMonotone(10, a / 10 + 1, b / 10);
    } else if b / 10 < a / 10 {
      MultiplyMonotone(10, b / 10 + 1, a / 10);
    }
  }

  // ---------------------------------------------------------------------------
  // Formatting and parsing `YYYY-MM-DD`

  /** Years that `toISOString` can write: four digits, or a sign and six digits. */
  predicate IsIsoYear(y: int) {
    -999999 <= y <= 999999
  }

  /** Four-digit years, the only ones an RFC 3339 `full-date` can hold. */
  predicate IsFourDigitYear(y: int) {
    0 <= y <= 9999
  }

  /** The year as `toISOString` writes it: `YYYY`, or `+YYYYYY` / `-YYYYYY` outside 0..9999. */
  function YearString(y: int): (s: string)
    requires IsIsoYear(y)
  {
    if 0 <= y <= 9999 then Pad(y, 4)
    else if y > 9999 then "+" + Pad(y, 6)
    else "-" + Pad(-y, 6)
  }

  /** The date part of `toISOString()`, i.e. `toISOString().split("T")[0]`. */
  function IsoDatePart(d: Date): (s: string)
    requires IsValid(d) && IsIsoYear(d.year)
    ensures IsFourDigitYear(d.year) ==> |s| == 10 && s[4] == '-' && s[7] == '-'
  {
    YearString(d.year) + "-" + Pad(d.month, 2) + "-" + Pad(d.day, 2)
  }

  /**
    The date `new Date(s)` denotes, or `None` for an invalid date: exactly ten
    characters `YYYY-MM-DD` with a month of 1..12 and a day that exists in it.
   */
  function ParseDate(s: string): (r: Option<Date>)
    ensures r.Some? ==> IsValid(r.value) && IsFourDigitYear(r.value.year)
    ensures r.Some? ==> |s| == 10 && s[4] == '-' && s[7] == '-'
  {
    if |s| == 10 && s[4] == '-' && s[7] == '-'
       && AllDigits(s[..4]) && AllDigits(s[5..7]) && AllDigits(s[8..])
    then
      var d := Date(DecimalValue(s[..4]), DecimalValue(s[5..7]), DecimalValue(s[8..]));
      assert Pow10(4) == 10000;
      if IsValid(d) then Some(d) else None
    else None
  }

  /** A well-formed date string: one that `new Date` reads as a valid `YYYY-MM-DD`. */
  predicate IsDateString(s: string) {
    ParseDate(s).Some?
  }

  /** Formatting a four-digit-year date and parsing it back gives the date. */
  lemma FormatThenParse(d: Date)
    requires IsValid(d) && IsFourDigitYear(d.year)
    ensures ParseDate(IsoDatePart(d)) == Some(d)
  {
    var s := IsoDatePart(d);
    assert s[..4] == Pad(d.year, 4);
    assert s[5..7] == Pad(d.month, 2);
    assert s[8..] == Pad(d.day, 2);
    assert Pow10(4) == 10000 && Pow10(2) == 100;
    DecimalOfPad(d.year, 4);
    DecimalOfPad(d.month, 2);
    DecimalOfPad(d.day, 2);
  }

  /** Parsing a date string and formatting the date gives the string back. */
  lemma ParseThenFormat(s: string)
    requires IsDateString(s)
    ensures IsoDatePart(ParseDate(s).value) == s
  {
    PadOfDecimal(s[..4]);
    PadOfDecimal(s[5..7]);
    PadOfDecimal(s[8..]);
    assert s == s[..4] + "-" + s[5..7] + "-" + s[8..];
  }

  /** On four-digit years, string order of the formatted dates is chronological order. */
  lemma IsoOrderIsChronological(a: Date, b: Date)
    requires IsValid(a) && IsFourDigitYear(a.year)
    requires IsValid(b) && IsFourDigitYear(b.year)
    ensures LexLess(IsoDatePart(a), IsoDatePart(b)) <==> Before(a, b)
  {
    var ya, yb := Pad(a.year, 4), Pad(b.year, 4);
    var ma, mb := "-" + Pad(a.month, 2), "-" + Pad(b.month, 2);
    var da, db := "-" + Pad(a.day, 2), "-" + Pad(b.day, 2);
    assert LexLess(IsoDatePart(a), IsoDatePart(b))
        == if ya == yb then LexLess(ma + da, mb + db) else LexLess(ya, yb) by {
      assert IsoDatePart(a) == ya + (ma + da);
      assert IsoDatePart(b) == yb + (mb + db);
      LexLessAppend(ya, yb, ma + da, mb + db);
    }
    assert LexLess(ma + da, mb + db) <==> a.month < b.month || (a.month == b.month && a.day < b.day) by {
      LexLessAppend(ma, mb, da, db);
      DashFieldOrder(a.month, b.month);
      DashFieldOrder(a.day, b.day);
    }
    assert (ya == yb <==> a.year == b.year) && (LexLess(ya, yb) <==> a.year < b.year) by {
      assert Pow10(4) == 10000;
      PadOrder(a.year, b.year, 4);
      DecimalOfPad(a.year, 4);
      DecimalOfPad(b.year, 4);
    }
  }

  /** A `-MM` or `-DD` field orders, and equals, as its number does. */
  lemma DashFieldOrder(x: nat, y: nat)
    requires x < 100 && y < 100
    ensures LexLess("-" + Pad(x, 2), "-" + Pad(y, 2)) <==> x < y
    ensures "-" + Pad(x, 2) == "-" + Pad(y, 2) <==> x == y
  {
    assert Pow10(2) == 100;
    LexLessAppend("-", "-", Pad(x, 2), Pad(y, 2));
    PadOrder(x, y, 2);
    DecimalOfPad(x, 2);
    DecimalOfPad(y, 2);
    assert ("-" + Pad(x, 2))[1..] == Pad(x, 2) && ("-" + Pad(y, 2))[1..] == Pad(y, 2);
  }

  // ---------------------------------------------------------------------------
  // incrementDate / decrementDate

  /**
    `incrementDate`: the next calendar day as a `toISOString` date part, or `None`
    when `new Date(date)` is an invalid date and `toISOString` throws a RangeError.
   */
  function IncrementDate(date: string): (r: Option<string>)
    ensures r.Some? <==> IsDateString(date)
  {
    match ParseDate(date)
    case None => None
    case Some(d) => Some(IsoDatePart(NextDay(d)))
  }

  /** `decrementDate`: the previous calendar day, or `None` as for `IncrementDate`. */
  function DecrementDate(date: string): (r: Option<string>)
    ensures r.Some? <==> IsDateString(date)
  {
    match ParseDate(date)
    case None => None
    case Some(d) => Some(IsoDatePart(PrevDay(d)))
  }

  /** The last and first dates a four-digit year can write. */
  const LastFourDigitDate := "9999-12-31"
  const FirstFourDigitDate := "0000-01-01"

  lemma ParseOfBoundaries()
    ensures ParseDate(LastFourDigitDate) == Some(Date(9999, 12, 31))
    ensures ParseDate(FirstFourDigitDate) == Some(Date(0, 1, 1))
  {
    FormatLastFourDigitDate();
    FormatFirstFourDigitDate();
    FormatThenParse(Date(9999, 12, 31));
    FormatThenParse(Date(0, 1, 1));
  }

  lemma FormatLastFourDigitDate()
    ensures IsoDatePart(Date(9999, 12, 31)) == LastFourDigitDate
  {
    assert DigitChar(9) == '9' && DigitChar(1) == '1' && DigitChar(2) == '2' && DigitChar(3) == '3';
    assert Pad(9, 1) == "9";
    assert Pad(99, 2) == "99";
    assert Pad(999, 3) == "999";
    assert Pad(9999, 4) == "9999";
    PadDecember31();
  }

  lemma FormatFirstFourDigitDate()
    ensures IsoDatePart(Date(0, 1, 1)) == FirstFourDigitDate
  {
    assert DigitChar(0) == '0' && DigitChar(1) == '1';
    assert Pad(0, 1) == "0";
    assert Pad(0, 2) == "00";
    assert Pad(0, 3) == "000";
    assert Pad(0, 4) == "0000";
    assert Pad(1, 2) == "01";
  }

  /**
    `incrementDate` yields a well-formed date string denoting the day after the
    input, exactly one day later in the day count.
   */
  lemma IncrementDateIsNextCalendarDay(s: string)
    requires IsDateString(s) && s != LastFourDigitDate
    ensures IsDateString(IncrementDate(s).value)
    ensures ParseDate(IncrementDate(s).value) == Some(NextDay(ParseDate(s).value))
    ensures DayNumber(ParseDate(IncrementDate(s).value).value) == DayNumber(ParseDate(s).value) + 1
  {
    var d := ParseDate(s).value;
    ParseThenFormat(s);
    FormatLastFourDigitDate();
    assert IsoDatePart(d) == s && IsoDatePart(Date(9999, 12, 31)) != s;
    assert d != Date(9999, 12, 31);
    FormatThenParse(NextDay(d));
    NextDayIsOneDayLater(d);
  }

  /** `decrementDate` yields a well-formed date string denoting the day before the input. */
  lemma DecrementDateIsPrevCalendarDay(s: string)
    requires IsDateString(s) && s != FirstFourDigitDate
    ensures IsDateString(DecrementDate(s).value)
    ensures ParseDate(DecrementDate(s).value) == Some(PrevDay(ParseDate(s).value))
    ensures DayNumber(ParseDate(DecrementDate(s).value).value) == DayNumber(ParseDate(s).value) - 1
  {
    var d := ParseDate(s).value;
    ParseThenFormat(s);
    FormatFirstFourDigitDate();
    assert IsoDatePart(d) == s && IsoDatePart(Date(0, 1, 1)) != s;
    assert d != Date(0, 1, 1);
    FormatThenParse(PrevDay(d));
    PrevDayIsOneDayEarlier(d);
  }

  /** Stepping forward then back returns the original string. */
  lemma IncrementThenDecrement(s: string)
    requires IsDateString(s) && s != LastFourDigitDate
    ensures DecrementDate(IncrementDate(s).value) == Some(s)
  {
    IncrementDateIsNextCalendarDay(s);
    NextPrevInverse(ParseDate(s).value);
    ParseThenFormat(s);
  }

  /** Stepping back then forward returns the original string. */
  lemma DecrementThenIncrement(s: string)
    requires IsDateString(s) && s != FirstFourDigitDate
    ensures IncrementDate(DecrementDate(s).value) == Some(s)
  {
    DecrementDateIsPrevCalendarDay(s);
    NextPrevInverse(ParseDate(s).value);
    ParseThenFormat(s);
  }

  /** `incrementDate` moves a date string up in string order. */
  lemma IncrementDateIncreases(s: string)
    requires IsDateString(s) && s != LastFourDigitDate
    ensures LexLess(s, IncrementDate(s).value)
  {
    var d := ParseDate(s).value;
    IncrementDateIsNextCalendarDay(s);
    ParseThenFormat(s);
    NextDayIsSuccessor(d, d);
    IsoOrderIsChronological(d, NextDay(d));
  }

  /**
    `decrementDate` moves every date string down in string order, including
    0000-01-01, whose expanded-year result starts with `-`, below every digit.
   */
  lemma DecrementDateDecreases(s: string)
    requires IsDateString(s)
    ensures LexLess(DecrementDate(s).value, s)
  {
    if s == FirstFourDigitDate {
      DecrementBeforeYear0();
      assert LexLess("-000001-12-31", FirstFourDigitDate);
    } else {
      var d := ParseDate(s).value;
      DecrementDateIsPrevCalendarDay(s);
      ParseThenFormat(s);
      PrevDayIsPredecessor(d, d);
      IsoOrderIsChronological(PrevDay(d), d);
    }
  }

  /**
    At 9999-12-31 `incrementDate` breaks string order: its expanded-year result
    starts with `+`, which sorts below every digit.
   */
  lemma IncrementPastYear9999SortsLower()
    ensures IncrementDate(LastFourDigitDate).Some?
    ensures LexLess(IncrementDate(LastFourDigitDate).value, LastFourDigitDate)
  {
    IncrementPastYear9999();
    assert LexLess("+010000-01-01", LastFourDigitDate);
  }

  /** Past the last four-digit year `toISOString` switches to the expanded year form. */
  lemma IncrementPastYear9999()
    ensures IncrementDate(LastFourDigitDate) == Some("+010000-01-01")
  {
    ParseOfBoundaries();
    assert NextDay(Date(9999, 12, 31)) == Date(10000, 1, 1);
    FormatYear10000();
  }

  /** Before year 0 `toISOString` writes a negative expanded year. */
  lemma DecrementBeforeYear0()
    ensures DecrementDate(FirstFourDigitDate) == Some("-000001-12-31")
  {
    ParseOfBoundaries();
    assert PrevDay(Date(0, 1, 1)) == Date(-1, 12, 31);
    FormatYearMinus1();
  }

  lemma FormatYear10000()
    ensures IsoDatePart(Date(10000, 1, 1)) == "+010000-01-01"
  {
    assert DigitChar(0) == '0' && DigitChar(1) == '1';
    assert Pad(0, 1) == "0";
    assert Pad(1, 1) == "1";
    assert Pad(1, 2) == "01";
    assert Pad(10, 3) == "010";
    assert Pad(100, 4) == "0100";
    assert Pad(1000, 5) == "01000";
    assert Pad(10000, 6) == "010000";
    assert YearString(10000) == "+010000";
  }

  lemma FormatYearMinus1()
    ensures IsoDatePart(Date(-1, 12, 31)) == "-000001-12-31"
  {
    PadOneToSix();
    PadDecember31();
    assert YearString(-1) == "-000001";
  }

  lemma PadOneToSix()
    ensures Pad(1, 6) == "000001"
  {
    assert DigitChar(0) == '0' && DigitChar(1) == '1';
    assert Pad(0, 1) == "0";
    assert Pad(0, 2) == "00";
    assert Pad(0, 3) == "000";
    assert Pad(0, 4) == "0000";
    assert Pad(0, 5) == "00000";
  }

  lemma PadDecember31()
    ensures Pad(12, 2) == "12" && Pad(31, 2) == "31"
  {
    assert DigitChar(1) == '1' && DigitChar(2) == '2' && DigitChar(3) == '3';
    assert Pad(1, 1) == "1";
    assert Pad(3, 1) == "3";
  }

  // ---------------------------------------------------------------------------
  // JavaScript Date objects

  const MsPerDay := 86400000

  /** A JavaScript `Date` in a UTC runtime: its calendar date and time of day. */
  class JsDate {
    var date: Date
    var msOfDay: int

    ghost predicate Valid()
      reads this
    {
      IsValid(date) && IsIsoYear(date.year) && 0 <= msOfDay < MsPerDay
    }

    constructor (date: Date, msOfDay: int)
      requires IsValid(date) && IsIsoYear(date.year) && 0 <= msOfDay < MsPerDay
      ensures Valid() && this.date == date && this.msOfDay == msOfDay
    {
      this.date := date;
      this.msOfDay := msOfDay;
    }

    /** `setHours(0, 0, 0, 0)`: the start of the same day. */
    method SetMidnight()
      requires Valid()
      modifies this
      ensures Valid() && date == old(date) && msOfDay == 0
    {
      msOfDay := 0;
    }
  }

  /**
    `createCurrentDate`: a new `Date` for the clock reading, moved to the start of
    its day. The clock is passed in.
   */
  method CreateCurrentDate(clockDate: Date, clockMs: int) returns (today: JsDate)
    requires IsValid(clockDate) && IsIsoYear(clockDate.year) && 0 <= clockMs < MsPerDay
    ensures fresh(today) && today.Valid()
    ensures today.date == clockDate && today.msOfDay == 0
  {
    today := new JsDate(clockDate, clockMs);
    today.SetMidnight();
  }

  /**
    `formatDateToStr`: the `YYYY-MM-DD` of the argument's day. As a side effect the
    caller's `Date` is moved to midnight; its calendar date is kept.
   */
  method FormatDateToStr(date: JsDate) returns (s: string)
    requires date.Valid()
    modifies date
    ensures date.Valid() && date.date == old(date.date) && date.msOfDay == 0
    ensures s == IsoDatePart(date.date)
  {
    date.SetMidnight();
    s := IsoDatePart(date.date);
  }
}

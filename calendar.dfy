/**
 * Dates as the application handles them: JavaScript timestamps in milliseconds
 * since 1970-01-01T00:00:00Z, read in UTC.
 */
module Calendar {
  import opened Wrappers
  import Text

  const DayMillis: int := 86_400_000

  /** Days since the epoch of the UTC day holding `ms`. */
  function DayOf(ms: int): (d: int)
    ensures d * DayMillis <= ms < (d + 1) * DayMillis
  {
    ms / DayMillis
  }

  /**
   * `new Date(new Date(ms).toISOString().split('T')[0])`: midnight UTC of the day,
   * the value the server stores as a log's `date`.
   */
  function DayStart(ms: int): (r: int)
    ensures r <= ms < r + DayMillis
    ensures r % DayMillis == 0
  {
    DayOf(ms) * DayMillis
  }

  /** Two instants have the same midnight exactly when they fall on the same UTC day. */
  lemma SameDay(a: int, b: int)
    ensures DayStart(a) == DayStart(b) <==> DayOf(a) == DayOf(b)
  {
  }

  /** A midnight is its own midnight. */
  lemma DayStartIdempotent(ms: int)
    ensures DayStart(DayStart(ms)) == DayStart(ms)
  {
    var d := DayOf(ms);
    assert DayOf(d * DayMillis) == d;
  }

  datatype Civil = Civil(year: int, month: int, day: int)

  /** A leap year of the proleptic Gregorian calendar. */
  predicate LeapYear(y: int) {
    y % 4 == 0 && (y % 100 != 0 || y % 400 == 0)
  }

  /** The length of the year running from 1 March of `y` to the end of February of `y + 1`. */
  function MarchYearLength(y: int): (n: int)
    ensures n == 365 || n == 366
  {
    if LeapYear(y + 1) then 366 else 365
  }

  /**
   * The March-based year holding day `doe` of an era, counted from year `y`
   * of the era, with the day's index within that year.
   */
  function YearOfEra(doe: nat, y: nat): (r: (nat, nat))
    ensures y <= r.0 && r.1 < MarchYearLength(r.0)
    decreases doe
  {
    if doe < MarchYearLength(y) then (y, doe) else YearOfEra(doe - MarchYearLength(y), y + 1)
  }

  /**
   * Proleptic Gregorian date of a day number (days since 1970-01-01). Days
   * are counted in 400-year eras starting on 1 March 0000, so that a leap day
   * ends its year; `month` is 1..12 as in an ISO string (`getMonth()` is
   * `month - 1`). Year `yoe` of an era is leap exactly when the calendar year
   * is, since an era is a whole number of 400-year cycles.
   */
  function CivilFromDays(days: int): (c: Civil)
    ensures 1 <= c.month <= 12
    ensures 1 <= c.day <= 31
  {
    var z := days + 719468;
    var era := z / 146097;
    var split := YearOfEra(z % 146097, 0);
    var yoe, doy := split.0, split.1;
    var mp := (5 * doy + 2) / 153;
    var d := doy - (153 * mp + 2) / 5 + 1;
    var m := if mp < 10 then mp + 3 else mp - 9;
    var y := yoe + era * 400;
    Civil(if m <= 2 then y + 1 else y, m, d)
  }

  /** The year field of `toISOString`: four digits, or a sign and six digits outside 0..9999. */
  function IsoYear(y: int): string {
    if 0 <= y <= 9999 then Text.PadNat(y, 4)
    else if y < 0 then "-" + Text.PadNat(-y, 6)
    else "+" + Text.PadNat(y, 6)
  }

  /**
   * `new Date(ms).toISOString().slice(0, 10)`: the first ten characters of the
   * ISO rendering of the instant.
   */
  function IsoDatePrefix(ms: int): (r: string)
    ensures |r| == 10
  {
    var c := CivilFromDays(DayOf(ms));
    var full := IsoYear(c.year) + "-" + Text.PadNat(c.month, 2) + "-" + Text.PadNat(c.day, 2) + "T";
    full[..10]
  }

  /** A year in 0..9999 is written as four digits that read back as the year. */
  lemma IsoYearDigits(y: int)
    requires 0 <= y <= 9999
    ensures |IsoYear(y)| >= 4 && Text.ParseInt(IsoYear(y)) == Some(y)
  {
    Text.ParseIntPadNat(y, 4);
  }
}

/**
 * Calendar dates. A date is an integer day number (day 0 is 1970-01-01); the
 * text form is the `YYYY-MM-DD` string the database returns for a `DATE`
 * column and that the application compares, concatenates and searches.
 */
module Dates {
  import Text

  /** Year, month (1-12) and day (1-31) of a day number, in the proleptic Gregorian calendar. */
  function Civil(d: int): (ymd: (int, int, int))
  {
    var z := d + 719468;
    var era := z / 146097;
    var doe := z % 146097;
    var yoe := (doe - doe / 1460 + doe / 36524 - doe / 146096) / 365;
    var doy := doe - (365 * yoe + yoe / 4 - yoe / 100);
    var mp := (5 * doy + 2) / 153;
    var day := doy - (153 * mp + 2) / 5 + 1;
    var month := if mp < 10 then mp + 3 else mp - 9;
    var year := yoe + era * 400 + (if month <= 2 then 1 else 0);
    (year, month, day)
  }

  /** A number written with at least `width` digits, zero-padded on the left (non-negative numbers). */
  function Padded(n: int, width: nat): (r: string)
    ensures n >= 0 ==> |r| >= width
  {
    var s := Text.IntToString(n);
    if n >= 0 && |s| < width then Zeros(width - |s|) + s else s
  }

  function Zeros(k: nat): (r: string)
    ensures |r| == k && forall i :: 0 <= i < k ==> r[i] == '0'
  {
    if k == 0 then "" else Zeros(k - 1) + "0"
  }

  /** The `YYYY-MM-DD` text of a day number. */
  function IsoDate(d: int): string {
    var (y, m, day) := Civil(d);
    Padded(y, 4) + "-" + Padded(m, 2) + "-" + Padded(day, 2)
  }
}

/**
 * Calendar dates of tweets. A Python `datetime` also carries a time of day;
 * only its date is ever used (for the month key and for the report), so the
 * model keeps the date alone.
 */
module Dates {
  import opened Options
  import Decimal
  import Fields

  datatype Date = Date(year: nat, month: nat, day: nat)

  /** `d.replace(day=1)`: the key that groups dates by calendar month. */
  function FirstOfMonth(d: Date): (k: Date)
    ensures k.year == d.year && k.month == d.month && k.day == 1
  {
    d.(day := 1)
  }

  /** Two dates share a month key exactly when year and month agree; the day is ignored. */
  lemma SameMonthKey(a: Date, b: Date)
    ensures FirstOfMonth(a) == FirstOfMonth(b) <==> a.year == b.year && a.month == b.month
  {
  }

  /** `strftime('%Y-%m-%d')`: zero-padded year (4), month (2) and day (2), joined by '-'. */
  function Format(d: Date): (s: string)
    ensures forall k :: 0 <= k < |s| ==> Decimal.IsDigit(s[k]) || s[k] == '-'
    ensures d.year < 10000 && d.month < 100 && d.day < 100 ==>
              |s| == 10 && s[4] == '-' && s[7] == '-'
  {
    var y, m, dd := Decimal.ZeroPad(d.year, 4), Decimal.ZeroPad(d.month, 2), Decimal.ZeroPad(d.day, 2);
    Fields.JoinThree(y, m, dd, '-');
    Fields.Join([y, m, dd], '-')
  }

  /** Reads a date written as three '-'-separated decimal fields. */
  function Parse(s: string): (r: Option<Date>)
    ensures r.Some? ==> |Fields.Split(s, '-')| == 3
  {
    var fs := Fields.Split(s, '-');
    if |fs| != 3 then None
    else
      match (Decimal.ParseNat(fs[0]), Decimal.ParseNat(fs[1]), Decimal.ParseNat(fs[2]))
      case (Some(y), Some(m), Some(d)) => Some(Date(y, m, d))
      case _ => None
  }

  lemma DigitsAvoid(s: string, c: char)
    requires Decimal.AllDigits(s)
    requires !Decimal.IsDigit(c)
    ensures c !in s
  {
  }

  /** Reading back a formatted date gives the same year, month and day. */
  lemma FormatRoundTrip(d: Date)
    ensures Parse(Format(d)) == Some(d)
  {
    var fs := [Decimal.ZeroPad(d.year, 4), Decimal.ZeroPad(d.month, 2), Decimal.ZeroPad(d.day, 2)];
    forall i | 0 <= i < 3 ensures '-' !in fs[i] {
      DigitsAvoid(fs[i], '-');
    }
    Fields.SplitJoin(fs, '-');
    Decimal.ZeroPadRoundTrip(d.year, 4);
    Decimal.ZeroPadRoundTrip(d.month, 2);
    Decimal.ZeroPadRoundTrip(d.day, 2);
  }
}

/** Times of day at minute precision, and the `HH:MM` text the tool writes for them. */
module Clock {
  import opened Errors

  /** A wall-clock time of day; the clock itself is not modelled, a reading is a parameter. */
  datatype TimeOfDay = TimeOfDay(hour: nat, minute: nat)

  predicate Valid(t: TimeOfDay) {
    t.hour < 24 && t.minute < 60
  }

  const MinutesPerDay: nat := 24 * 60

  /** Minutes since midnight. */
  function Minutes(t: TimeOfDay): int {
    t.hour * 60 + t.minute
  }

  function FromMinutes(m: int): (t: TimeOfDay)
    requires 0 <= m < MinutesPerDay
    ensures Valid(t) && Minutes(t) == m
  {
    TimeOfDay(m / 60, m % 60)
  }

  predicate IsDigit(c: char) {
    '0' <= c <= '9'
  }

  function DigitValue(c: char): (d: nat)
    requires IsDigit(c)
    ensures d < 10
  {
    c as int - '0' as int
  }

  function DigitChar(d: nat): (c: char)
    requires d < 10
    ensures IsDigit(c) && DigitValue(c) == d
  {
    ('0' as int + d) as char
  }

  /** A number below 100 written with exactly two decimal digits, zero-padded. */
  function TwoDigits(n: nat): (s: string)
    requires n < 100
    ensures |s| == 2 && IsDigit(s[0]) && IsDigit(s[1])
    ensures DigitValue(s[0]) * 10 + DigitValue(s[1]) == n
  {
    [DigitChar(n / 10), DigitChar(n % 10)]
  }

  /** A time written at minute precision: `HH:MM`, both fields zero-padded. */
  function IsoMinutes(t: TimeOfDay): string
    requires Valid(t)
  {
    TwoDigits(t.hour) + ":" + TwoDigits(t.minute)
  }

  /** A two-character numeric field: its value when both characters are digits. */
  function Field(hi: char, lo: char): (r: Option<nat>)
    ensures r.Some? <==> IsDigit(hi) && IsDigit(lo)
    ensures r.Some? ==> r.value == DigitValue(hi) * 10 + DigitValue(lo) && r.value < 100
  {
    if IsDigit(hi) && IsDigit(lo) then Some(DigitValue(hi) * 10 + DigitValue(lo)) else None
  }

  /** Reads a time of day written as `HH:MM` and gives its minutes since midnight;
      any other text, or an hour or minute out of range, is not a time. */
  function ParseTime(s: string): (r: Option<int>)
    ensures r.Some? ==> 0 <= r.value < MinutesPerDay
    ensures r.Some? ==> |s| == 5 && s[2] == ':'
  {
    if |s| == 5 && s[2] == ':' then
      match (Field(s[0], s[1]), Field(s[3], s[4]))
      case (Some(h), Some(m)) => if h < 24 && m < 60 then Some(h * 60 + m) else None
      case _ => None
    else
      None
  }

  /** The text written for a time is five characters, each a digit or the colon. */
  lemma IsoMinutesChars(t: TimeOfDay)
    requires Valid(t)
    ensures var s := IsoMinutes(t);
            |s| == 5 && forall i :: 0 <= i < 5 ==> IsDigit(s[i]) || s[i] == ':'
  {
    var s := IsoMinutes(t);
    assert s[0] == TwoDigits(t.hour)[0] && s[1] == TwoDigits(t.hour)[1];
    assert s[3] == TwoDigits(t.minute)[0] && s[4] == TwoDigits(t.minute)[1];
  }

  /** Parsing what the tool writes gives back the time that was written. */
  lemma ParseIsoMinutes(t: TimeOfDay)
    requires Valid(t)
    ensures ParseTime(IsoMinutes(t)) == Some(Minutes(t))
  {
    var s := IsoMinutes(t);
    assert s[0] == TwoDigits(t.hour)[0] && s[1] == TwoDigits(t.hour)[1];
    assert s[3] == TwoDigits(t.minute)[0] && s[4] == TwoDigits(t.minute)[1];
  }

  /** Every text that parses is exactly what the tool would have written for that time,
      so two different texts never parse to the same time. */
  lemma ParsedIsIsoMinutes(s: string)
    requires ParseTime(s).Some?
    ensures IsoMinutes(FromMinutes(ParseTime(s).value)) == s
  {
    var h := DigitValue(s[0]) * 10 + DigitValue(s[1]);
    var m := DigitValue(s[3]) * 10 + DigitValue(s[4]);
    var t := FromMinutes(ParseTime(s).value);
    assert t.hour == h && t.minute == m;
    var w := IsoMinutes(t);
    assert w[0] == DigitChar(h / 10) && w[1] == DigitChar(h % 10);
    assert w[3] == DigitChar(m / 10) && w[4] == DigitChar(m % 10);
    assert h / 10 == DigitValue(s[0]) && h % 10 == DigitValue(s[1]);
    assert m / 10 == DigitValue(s[3]) && m % 10 == DigitValue(s[4]);
    assert w == s;
  }
}

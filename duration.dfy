/** The `ms` library's string form, as used to turn `JWT_REFRESH_EXPIRES_IN`
    (e.g. `"7d"`) into milliseconds: an optional minus sign, an amount, any
    number of spaces, and an optional unit name matched without regard to
    case; no unit means milliseconds; anything else, or a string over 100
    characters, gives `undefined` (`None` here). */
module Duration {
  import opened Outcomes
  import opened JsText

  const SecondMs: nat := 1000
  const MinuteMs: nat := 60 * SecondMs
  const HourMs: nat := 60 * MinuteMs
  const DayMs: nat := 24 * HourMs
  const WeekMs: nat := 7 * DayMs
  const YearMs: nat := 36525 * DayMs / 100  // 365.25 days

  /** Milliseconds per unit, for each unit name `ms` accepts (lower case). */
  function UnitMs(unit: string): Option<nat> {
    if unit in ["years", "year", "yrs", "yr", "y"] then Some(YearMs)
    else if unit in ["weeks", "week", "w"] then Some(WeekMs)
    else if unit in ["days", "day", "d"] then Some(DayMs)
    else if unit in ["hours", "hour", "hrs", "hr", "h"] then Some(HourMs)
    else if unit in ["minutes", "minute", "mins", "min", "m"] then Some(MinuteMs)
    else if unit in ["seconds", "second", "secs", "sec", "s"] then Some(SecondMs)
    else if unit in ["milliseconds", "millisecond", "msecs", "msec", "ms", ""] then Some(1)
    else None
  }

  function LowerChar(c: char): char {
    if 'A' <= c <= 'Z' then (c as int + 32) as char else c
  }

  /** ASCII lower-casing: `A`-`Z` become `a`-`z`, every other character is kept. */
  function LowerAscii(s: string): (r: string)
    ensures |r| == |s|
    ensures forall i :: 0 <= i < |s| ==> r[i] == LowerChar(s[i])
    ensures forall i :: 0 <= i < |r| ==> !('A' <= r[i] <= 'Z')
  {
    if s == [] then []
    else
      var rest := LowerAscii(s[1..]);
      var r := [LowerChar(s[0])] + rest;
      assert forall i :: 0 < i < |s| ==> r[i] == rest[i - 1] && s[i] == s[1..][i - 1];
      r
  }

  function DropSpaces(s: string): string {
    if s != [] && s[0] == ' ' then DropSpaces(s[1..]) else s
  }

  /** `ms(s)` for a string `s`, in milliseconds: nothing over 100
      characters or without a leading amount is read, and the result is
      negative only after a leading minus sign. */
  function Ms(s: string): (r: Option<int>)
    ensures |s| > 100 ==> r.None?
    ensures r.Some? ==>
      var body := if s != [] && s[0] == '-' then s[1..] else s;
      body != [] && IsDigitIn(body[0], 10)
    ensures r.Some? && r.value < 0 ==> s != [] && s[0] == '-'
  {
    if |s| > 100 then None
    else
      var neg := s != [] && s[0] == '-';
      match MsAmount(if neg then s[1..] else s)
      case None => None
      case Some(v) => var i: int := v; Some(if neg then -i else i)
  }

  /** The unsigned part: an amount, then the unit. */
  function MsAmount(body: string): (r: Option<nat>)
    ensures r.Some? ==> body != [] && IsDigitIn(body[0], 10)
  {
    var k := DigitRun(body, 10);
    if k == 0 then None
    else
      match UnitMs(LowerAscii(DropSpaces(body[k..])))
      case None => None
      case Some(f) => Some(ValueIn(body[..k], 10) * f)
  }

  /** Leading zeros before the amount do not change the unsigned part. */
  lemma MsAmountPadded(zeros: string, n: nat, tail: string)
    requires AllZeros(zeros)
    requires tail == [] || !IsDigitIn(tail[0], 10)
    ensures MsAmount(zeros + DecimalString(n) + tail) == Scale(n, UnitMs(LowerAscii(DropSpaces(tail))))
    ensures (zeros + DecimalString(n) + tail)[0] == (zeros + DecimalString(n))[0]
    ensures IsDigitIn((zeros + DecimalString(n) + tail)[0], 10)
  {
    var zd := zeros + DecimalString(n);
    PaddedDecimalRun(zeros, n, tail);
    assert (zd + tail)[0] == zd[0] && IsDigitIn(zd[0], 10);
    assert (zd + tail)[|zd|..] == tail;
  }

  /** A duration written as a number followed by something that is not a
      digit is that number of the units the rest names. */
  lemma MsReadsAmountThenUnit(n: nat, tail: string)
    requires |DecimalString(n)| + |tail| <= 100
    requires tail == [] || !IsDigitIn(tail[0], 10)
    ensures Ms(DecimalString(n) + tail)
         == match UnitMs(LowerAscii(DropSpaces(tail)))
            case None => None
            case Some(f) => Some(n * f)
  {
    var d := DecimalString(n);
    DecimalStringValue(n);
    DigitRunStopsAtTail(d, tail, 10);
    assert (d + tail)[0] == d[0];
    assert (d + tail)[|d|..] == tail;
  }

  /** `n` of a unit worth `unit` milliseconds, if the unit is known. */
  function Scale(n: nat, unit: Option<nat>): Option<nat> {
    match unit
    case None => None
    case Some(f) => Some(n * f)
  }

  /** An amount under a sign that is `"-"` or empty. */
  function Signed(sign: string, amount: Option<nat>): Option<int> {
    match amount
    case None => None
    case Some(v) => Some(if sign == "-" then -(v as int) else v)
  }

  /** A leading minus sign negates the amount that follows it. */
  lemma MsSigned(sign: string, body: string)
    requires sign == "" || sign == "-"
    requires body != [] && IsDigitIn(body[0], 10)
    requires |sign| + |body| <= 100
    ensures Ms(sign + body) == Signed(sign, MsAmount(body))
  {
    var s := sign + body;
    assert s[0] == (if sign == "" then body[0] else '-');
    assert (if s != [] && s[0] == '-' then s[1..] else s) == body by {
      if sign == "-" {
        assert s[1..] == body;
      } else {
        assert s == body;
      }
    }
  }

  /** A leading minus sign negates the amount, and leading zeros do not
      change it: `ms("-05m")` is minus five minutes. */
  lemma MsReadsPaddedAmount(sign: string, zeros: string, n: nat, tail: string)
    requires sign == "" || sign == "-"
    requires AllZeros(zeros)
    requires |sign| + |zeros| + |DecimalString(n)| + |tail| <= 100
    requires tail == [] || !IsDigitIn(tail[0], 10)
    ensures Ms(sign + (zeros + DecimalString(n) + tail)) == Signed(sign, Scale(n, UnitMs(LowerAscii(DropSpaces(tail)))))
  {
    MsAmountPadded(zeros, n, tail);
    MsSigned(sign, zeros + DecimalString(n) + tail);
  }
}

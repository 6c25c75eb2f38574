/** The check the scheduled-trigger handler applies to `schedule_value`
    before it stores anything. */
module Validation {
  import opened Models
  import opened Literals

  /** Why a value was refused; each is a distinct 400 message. */
  datatype Rejection =
    | BadTimeFormat        // not "H:M" with two int parts
    | TimeOutOfRange       // hour outside 0..23 or minute outside 0..59
    | BadIntervalFormat    // not an int
    | NonPositiveInterval  // an int <= 0

  datatype Verdict = Accept | Reject(reason: Rejection)

  /** `hour, minute = map(int, s.split(':'))`: exactly two pieces, both
      ints; any other shape raises ValueError (None here). */
  function ParseHourMinute(s: string): (r: Option<(int, int)>)
    ensures r.Some? ==> Count(s, ':') == 1
    ensures r.Some? ==> var parts := Split(s, ':');
                        |parts| == 2 && ParseInt(parts[0]) == Some(r.value.0) && ParseInt(parts[1]) == Some(r.value.1)
  {
    JoinSplit(s, ':');
    var parts := Split(s, ':');
    if |parts| != 2 then None
    else
      match (ParseInt(parts[0]), ParseInt(parts[1]))
      case (Some(h), Some(m)) => Some((h, m))
      case _ => None
  }

  /** A wall-clock hour and minute. */
  predicate InDay(hour: int, minute: int) {
    0 <= hour < 24 && 0 <= minute < 60
  }

  /** The validation step of the scheduled-trigger handler. Schedule types
      other than the two known ones are not examined here. */
  function ValidateScheduleValue(scheduleType: string, value: string): (v: Verdict)
    ensures scheduleType != "fixed_time" && scheduleType != "fixed_interval" ==> v == Accept
    ensures scheduleType == "fixed_time" ==> v != Reject(BadIntervalFormat) && v != Reject(NonPositiveInterval)
    ensures scheduleType == "fixed_interval" ==> v != Reject(BadTimeFormat) && v != Reject(TimeOutOfRange)
  {
    if scheduleType == "fixed_time" then
      match ParseHourMinute(value)
      case None => Reject(BadTimeFormat)
      case Some((h, m)) => if InDay(h, m) then Accept else Reject(TimeOutOfRange)
    else if scheduleType == "fixed_interval" then
      match ParseInt(value)
      case None => Reject(BadIntervalFormat)
      case Some(n) => if n <= 0 then Reject(NonPositiveInterval) else Accept
    else Accept
  }

  /** "H:M" written with Python's `str` is accepted exactly when the time is
      a wall-clock time, and refused as out of range otherwise (for numbers
      `int` converts at all). */
  lemma FixedTimeAccepts(h: int, m: int)
    requires FitsDigitLimit(h) && FitsDigitLimit(m)
    ensures ValidateScheduleValue("fixed_time", FormatInt(h) + ":" + FormatInt(m))
            == if InDay(h, m) then Accept else Reject(TimeOutOfRange)
  {
    SplitPair(FormatInt(h), FormatInt(m));
    ParseFormatInt(h);
    ParseFormatInt(m);
  }

  /** An accepted fixed_time value contains exactly one colon. */
  lemma FixedTimeHasOneColon(s: string)
    requires ValidateScheduleValue("fixed_time", s) == Accept
    ensures Count(s, ':') == 1
  {
    JoinSplit(s, ':');
  }

  /** An accepted fixed_time value parses to a wall-clock time, and joining
      its two pieces with a colon gives the value back. */
  lemma FixedTimeAcceptedShape(s: string)
    requires ValidateScheduleValue("fixed_time", s) == Accept
    ensures var parts := Split(s, ':');
            |parts| == 2 && s == parts[0] + ":" + parts[1]
            && ParseHourMinute(s).Some? && InDay(ParseHourMinute(s).value.0, ParseHourMinute(s).value.1)
  {
    JoinSplit(s, ':');
    var parts := Split(s, ':');
    assert Join(parts, ':') == parts[0] + [':'] + Join(parts[1..], ':');
  }

  /** An interval written with Python's `str` is accepted exactly when it is
      positive (for numbers `int` converts at all). */
  lemma FixedIntervalAccepts(n: int)
    requires FitsDigitLimit(n)
    ensures ValidateScheduleValue("fixed_interval", FormatInt(n))
            == if n > 0 then Accept else Reject(NonPositiveInterval)
  {
    ParseFormatInt(n);
  }

  /** A fixed_time value "A:B" whose pieces hold no colon is judged on the
      ints the two pieces parse to. */
  lemma FixedTimeOfPieces(a: string, b: string)
    requires ':' !in a && ':' !in b
    ensures ValidateScheduleValue("fixed_time", a + ":" + b)
            == if ParseInt(a).None? || ParseInt(b).None? then Reject(BadTimeFormat)
               else if InDay(ParseInt(a).value, ParseInt(b).value) then Accept
               else Reject(TimeOutOfRange)
  {
    SplitPair(a, b);
  }

  /** Values that are not two colon-separated ints are refused as
      malformed. */
  lemma MalformedTimeExamples()
    ensures ValidateScheduleValue("fixed_time", "12:30:00") == Reject(BadTimeFormat)
    ensures ValidateScheduleValue("fixed_time", "abc") == Reject(BadTimeFormat)
  {
    assert "12:30:00" == "12" + [':'] + ("30" + ":" + "00");
    SplitPrefix("12", "30" + ":" + "00", ':');
    SplitPair("30", "00");
    SplitNoSeparator("abc", ':');
  }

  /** `int("00")` is 0: leading zeros are allowed. */
  lemma ParseDoubleZero()
    ensures ParseInt("00") == Some(0)
  {
    assert AllDigits("00") && "00"[..1] == "0";
    assert DigitsValue("0") == 0;
  }

  /** Hour 24 is refused as out of range. */
  lemma HourTwentyFourRefused()
    ensures ValidateScheduleValue("fixed_time", "24:00") == Reject(TimeOutOfRange)
  {
    ParseDoubleZero();
    ParseFormatInt(24);
    assert FormatInt(24) == "24";
    assert "24:00" == "24" + ":" + "00";
    FixedTimeOfPieces("24", "00");
  }

  /** Hour 25 is refused as out of range. */
  lemma HourTwentyFiveRefused()
    ensures ValidateScheduleValue("fixed_time", "25:00") == Reject(TimeOutOfRange)
  {
    ParseDoubleZero();
    ParseFormatInt(25);
    assert FormatInt(25) == "25";
    assert "25:00" == "25" + ":" + "00";
    FixedTimeOfPieces("25", "00");
  }

  /** Minute 60 is refused as out of range. */
  lemma MinuteSixtyRefused()
    ensures ValidateScheduleValue("fixed_time", "12:60") == Reject(TimeOutOfRange)
  {
    FixedTimeAccepts(12, 60);
    assert FormatInt(12) == "12" && FormatInt(60) == "60";
    assert "12:60" == FormatInt(12) + ":" + FormatInt(60);
  }

  /** Minute 99 is refused as out of range. */
  lemma MinuteNinetyNineRefused()
    ensures ValidateScheduleValue("fixed_time", "12:99") == Reject(TimeOutOfRange)
  {
    FixedTimeAccepts(12, 99);
    assert FormatInt(12) == "12" && FormatInt(99) == "99";
    assert "12:99" == FormatInt(12) + ":" + FormatInt(99);
  }

  /** An interval of more than `MaxStrDigits` digits is refused as malformed,
      because `int` raises ValueError on it. */
  lemma LongIntervalRefused(s: string)
    requires AllDigits(s) && |s| > MaxStrDigits
    ensures ValidateScheduleValue("fixed_interval", s) == Reject(BadIntervalFormat)
  {
    TooManyDigitsRefused(s);
  }

  /** Zero, negative and non-numeric intervals are refused. */
  lemma RejectedIntervalExamples()
    ensures ValidateScheduleValue("fixed_interval", "0") == Reject(NonPositiveInterval)
    ensures ValidateScheduleValue("fixed_interval", "-5") == Reject(NonPositiveInterval)
    ensures ValidateScheduleValue("fixed_interval", "abc") == Reject(BadIntervalFormat)
  {
    FixedIntervalAccepts(0);
    FixedIntervalAccepts(-5);
    assert FormatInt(0) == "0";
    assert FormatInt(-5) == "-5";
  }
}

/** The `HH:mm` helpers of src/common/helpers/time.helper.ts: parsing a time of
    day into minutes since midnight, and the range and day-of-week checks
    built on it. */
module TimeHelper {
  import opened Common
  import opened Digits

  /** `Number` of a two-character string of decimal digits. */
  function TwoDigitValue(hi: char, lo: char): int
    requires IsDigit(hi) && IsDigit(lo)
  {
    DigitValue(hi) * 10 + DigitValue(lo)
  }

  /** The regular expression `^([0-1]\d|2[0-3]):([0-5]\d)$`, read character by
      character (JavaScript's `\d` is an ASCII digit and `$` without the `m`
      flag only matches at the end of the input). */
  predicate MatchesHHmm(s: string)
    ensures MatchesHHmm(s) ==>
              && |s| == 5 && IsDigit(s[0]) && IsDigit(s[1]) && IsDigit(s[3]) && IsDigit(s[4])
              && 0 <= TwoDigitValue(s[0], s[1]) <= 23 && 0 <= TwoDigitValue(s[3], s[4]) <= 59
  {
    && |s| == 5
    && ((('0' <= s[0] <= '1') && IsDigit(s[1])) || (s[0] == '2' && '0' <= s[1] <= '3'))
    && s[2] == ':'
    && '0' <= s[3] <= '5' && IsDigit(s[4])
  }

  /** The canonical zero-padded `HH:mm` text of a time of day: the reference
      definition the pattern is checked against. */
  function FormatHHmm(h: int, m: int): (s: string)
    requires 0 <= h <= 23 && 0 <= m <= 59
    ensures |s| == 5
  {
    [DigitChar(h / 10), DigitChar(h % 10), ':', DigitChar(m / 10), DigitChar(m % 10)]
  }

  /** parseTimeToMinutes: `null` and `""` are rejected first, then anything
      that is not `HH:mm`; the range checks on hours and minutes follow. */
  function ParseTimeToMinutes(time: Option<string>): (r: Result<int>)
    ensures r.Ok? <==> time.Some? && MatchesHHmm(time.value)
    ensures time == None || time == Some("") ==> r == Fail(InvalidTime)
    ensures r.Fail? ==> r.error == InvalidTime || r.error == BadTimeFormat
    ensures r.Ok? ==> 0 <= r.value <= 1439
  {
    if time.None? || time.value == "" then Fail(InvalidTime)
    else if !MatchesHHmm(time.value) then Fail(BadTimeFormat)
    else
      var s := time.value;
      var hours := TwoDigitValue(s[0], s[1]);
      var minutes := TwoDigitValue(s[3], s[4]);
      if hours < 0 || hours > 23 then Fail(HoursOutOfRange)
      else if minutes < 0 || minutes > 59 then Fail(MinutesOutOfRange)
      else Ok(hours * 60 + minutes)
  }

  /** The pattern accepts exactly the zero-padded renderings of the times of
      day 00:00 .. 23:59. */
  lemma MatchesHHmmIffFormatted(s: string)
    ensures MatchesHHmm(s) <==>
              exists h, m :: 0 <= h <= 23 && 0 <= m <= 59 && s == FormatHHmm(h, m)
  {
    if MatchesHHmm(s) {
      var h, m := TwoDigitValue(s[0], s[1]), TwoDigitValue(s[3], s[4]);
      assert h / 10 == DigitValue(s[0]) && h % 10 == DigitValue(s[1]);
      assert m / 10 == DigitValue(s[3]) && m % 10 == DigitValue(s[4]);
      assert s == FormatHHmm(h, m);
    }
    if exists h, m :: 0 <= h <= 23 && 0 <= m <= 59 && s == FormatHHmm(h, m) {
      var h, m :| 0 <= h <= 23 && 0 <= m <= 59 && s == FormatHHmm(h, m);
      assert s[0] == DigitChar(h / 10) && s[3] == DigitChar(m / 10);
    }
  }

  /** Parsing a formatted time gives back hours * 60 + minutes. */
  lemma ParseFormatted(h: int, m: int)
    requires 0 <= h <= 23 && 0 <= m <= 59
    ensures ParseTimeToMinutes(Some(FormatHHmm(h, m))) == Ok(h * 60 + m)
  {
    var s := FormatHHmm(h, m);
    MatchesHHmmIffFormatted(s);
    assert TwoDigitValue(s[0], s[1]) == h;
    assert TwoDigitValue(s[3], s[4]) == m;
  }

  /** isAfter: "start is after end" includes equality. */
  function IsAfter(startMinutes: int, endMinutes: int): (r: bool)
    ensures startMinutes == endMinutes ==> r
    ensures r <==> !(startMinutes < endMinutes)
  {
    startMinutes >= endMinutes
  }

  /** validateTimeRange: both times present and well formed, start strictly
      before end. */
  function ValidateTimeRange(startTime: string, endTime: string): (r: Result<()>)
    ensures r.Ok? <==>
              && MatchesHHmm(startTime) && MatchesHHmm(endTime)
              && ParseTimeToMinutes(Some(startTime)).value < ParseTimeToMinutes(Some(endTime)).value
    ensures startTime == endTime ==> r.Fail?
    ensures startTime == "" || endTime == "" ==> r == Fail(MissingTimes)
  {
    if startTime == "" || endTime == "" then Fail(MissingTimes)
    else
      var startMinutes :- ParseTimeToMinutes(Some(startTime));
      var endMinutes :- ParseTimeToMinutes(Some(endTime));
      if IsAfter(startMinutes, endMinutes) then Fail(StartNotBeforeEnd) else Ok(())
  }

  /** validateDayOfWeek on a JavaScript number: `Number.isInteger` and the
      bounds 0..6. */
  function ValidateDayOfWeek(dayOfWeek: real): (r: Result<()>)
    ensures r.Ok? <==> dayOfWeek in {0.0, 1.0, 2.0, 3.0, 4.0, 5.0, 6.0}
    ensures r.Fail? ==> r.error == InvalidDayOfWeek
  {
    if dayOfWeek.Floor as real != dayOfWeek || dayOfWeek < 0.0 || dayOfWeek > 6.0 then
      Fail(InvalidDayOfWeek)
    else
      Ok(())
  }

  /** isValidTimeFormat: the non-throwing twin of parseTimeToMinutes. */
  function IsValidTimeFormat(time: string): (r: bool)
    ensures r <==> ParseTimeToMinutes(Some(time)).Ok?
  {
    time != "" && MatchesHHmm(time)
  }

  /** isTimeWithinRange: false on any malformed input, otherwise the
      inclusive test start <= time <= end. */
  function IsTimeWithinRange(time: string, startTime: string, endTime: string): (r: bool)
    ensures r ==> IsValidTimeFormat(time) && IsValidTimeFormat(startTime) && IsValidTimeFormat(endTime)
    ensures IsValidTimeFormat(time) && IsValidTimeFormat(startTime) && IsValidTimeFormat(endTime) ==>
              (r <==> ParseTimeToMinutes(Some(startTime)).value <= ParseTimeToMinutes(Some(time)).value
                        <= ParseTimeToMinutes(Some(endTime)).value)
  {
    if !IsValidTimeFormat(time) || !IsValidTimeFormat(startTime) || !IsValidTimeFormat(endTime) then
      false
    else
      var timeMinutes :=  ParseTimeToMinutes(Some(time)).value;
      var startMinutes := ParseTimeToMinutes(Some(startTime)).value;
      var endMinutes := ParseTimeToMinutes(Some(endTime)).value;
      timeMinutes >= startMinutes && timeMinutes <= endMinutes
  }

  /** Both ends of a well-formed, ordered range lie within it. */
  lemma WithinRangeInclusive(startTime: string, endTime: string)
    requires ValidateTimeRange(startTime, endTime).Ok?
    ensures IsTimeWithinRange(startTime, startTime, endTime)
    ensures IsTimeWithinRange(endTime, startTime, endTime)
  {
  }
}

/**
 * The two time-of-day columns of the program table. The database stores a
 * bare `HH:MM:SS`; reading a row places that time on today's local date
 * (an end time of midnight on tomorrow's), and writing keeps only the time
 * of day in Asia/Tokyo. Instants are integer milliseconds since the epoch;
 * an ISO string is represented by the instant it denotes. Today's local date
 * and the process's offset from UTC are inputs.
 */
module TimeColumn {
  import opened Wrappers
  import opened Text

  const MsPerSecond: nat := 1000
  const MsPerMinute: nat := 60000
  const MsPerHour: nat := 3600000
  const MsPerDay: nat := 86400000
  /** Asia/Tokyo is UTC+9 all year. */
  const TokyoOffsetMinutes: int := 540

  /** `new Date()` as the decoder sees it: a local day number and the zone's offset in minutes. */
  datatype Clock = Clock(today: int, offsetMinutes: int)

  /** `toISOString()` on an invalid date throws. */
  datatype DecodeError = RangeError

  /** `Number(s)` on the strings this column sees: "" is 0, digits their value, anything else NaN. */
  function ToNumber(s: string): Option<nat> {
    if AllDigits(s) then Some(ParseDigits(s)) else None
  }

  datatype Fields = Fields(hours: nat, minutes: nat, seconds: nat)

  /**
   * `const [hours, minutes, seconds] = timeString.split(':').map(Number)`;
   * a missing part is `undefined` and a non-number is NaN, and either makes
   * the date invalid.
   */
  function ParseFields(timeString: string): Result<Fields, DecodeError> {
    var parts := Split(timeString, ':');
    if |parts| < 3 then Err(RangeError)
    else
      var h := ToNumber(parts[0]);
      var m := ToNumber(parts[1]);
      var s := ToNumber(parts[2]);
      if h.None? || m.None? || s.None? then Err(RangeError)
      else Ok(Fields(h.value, m.value, s.value))
  }

  /** Milliseconds into a local day for the given fields; out-of-range fields carry over. */
  function WallTime(f: Fields): int {
    f.hours * MsPerHour + f.minutes * MsPerMinute + f.seconds * MsPerSecond
  }

  /** `new Date(y, m, d, hours, minutes, seconds, 0)` for today, then `toISOString()`. */
  function StartDecode(timeString: string, clock: Clock): Result<int, DecodeError> {
    match ParseFields(timeString)
    case Err(e) => Err(e)
    case Ok(f) => Ok(clock.today * MsPerDay + WallTime(f) - clock.offsetMinutes * MsPerMinute)
  }

  predicate IsMidnight(f: Fields) {
    f.hours == 0 && f.minutes == 0 && f.seconds == 0
  }

  /** The end column's decoder, as a specification: midnight moves to tomorrow. */
  function EndDecode(timeString: string, clock: Clock): Result<int, DecodeError> {
    match StartDecode(timeString, clock)
    case Err(e) => Err(e)
    case Ok(t) => if IsMidnight(ParseFields(timeString).value) then Ok(t + MsPerDay) else Ok(t)
  }

  /** A `Date` built from local fields, whose day `setDate` can move. */
  class LocalDate {
    const offsetMinutes: int
    /** Local wall-clock milliseconds since the local epoch. */
    var wallMs: int

    constructor(day: int, f: Fields, offsetMinutes: int)
      ensures this.offsetMinutes == offsetMinutes
      ensures wallMs == day * MsPerDay + WallTime(f)
    {
      this.offsetMinutes := offsetMinutes;
      wallMs := day * MsPerDay + WallTime(f);
    }

    /** `date.setDate(date.getDate() + 1)`, with no daylight-saving change. */
    method NextDay()
      modifies this
      ensures wallMs == old(wallMs) + MsPerDay
    {
      wallMs := wallMs + MsPerDay;
    }

    /** The instant, as `toISOString()` writes it. */
    function Time(): int
      reads this
    {
      wallMs - offsetMinutes * MsPerMinute
    }
  }

  /** `endAtTimestamp.fromDriver` */
  method EndFromDriver(timeString: string, clock: Clock) returns (r: Result<int, DecodeError>)
    ensures r == EndDecode(timeString, clock)
  {
    var fields := ParseFields(timeString);
    if fields.Err? {
      return Err(RangeError);
    }
    var f := fields.value;
    var date := new LocalDate(clock.today, f, clock.offsetMinutes);
    if f.hours == 0 && f.minutes == 0 && f.seconds == 0 {
      date.NextDay();
    }
    return Ok(date.Time());
  }

  /** The end decoder differs from the start decoder only at midnight, by exactly one day. */
  lemma EndIsStartExceptMidnight(timeString: string, clock: Clock)
    ensures StartDecode(timeString, clock).Err? <==> EndDecode(timeString, clock).Err?
    ensures ParseFields(timeString).Ok? && !IsMidnight(ParseFields(timeString).value) ==>
      EndDecode(timeString, clock) == StartDecode(timeString, clock)
    ensures ParseFields(timeString).Ok? && IsMidnight(ParseFields(timeString).value) ==>
      EndDecode(timeString, clock).value == StartDecode(timeString, clock).value + MsPerDay
  {
  }

  /** The time string of a well-formed stored value. */
  function TimeString(f: Fields): string {
    Pad2(f.hours) + ":" + Pad2(f.minutes) + ":" + Pad2(f.seconds)
  }

  predicate ValidTime(f: Fields) {
    f.hours < 24 && f.minutes < 60 && f.seconds < 60
  }

  lemma SplitTimeString(f: Fields)
    requires ValidTime(f)
    ensures Split(TimeString(f), ':') == [Pad2(f.hours), Pad2(f.minutes), Pad2(f.seconds)]
  {
    var a, b, c := Pad2(f.hours), Pad2(f.minutes), Pad2(f.seconds);
    var s := TimeString(f);
    SplitAtFirst(a, b + ":" + c);
    assert s == a + ":" + (b + ":" + c);
    SplitAtFirst(b, c);
    SplitWhole(c);
  }

  lemma SplitAtFirst(a: string, rest: string)
    requires AllDigits(a)
    ensures Split(a + ":" + rest, ':') == [a] + Split(rest, ':')
  {
    var s := a + ":" + rest;
    assert ':' !in a;
    TakeUntilBefore(a, ':', rest);
    assert s[|a| + 1..] == rest;
  }

  lemma SplitWhole(c: string)
    requires AllDigits(c)
    ensures Split(c, ':') == [c]
  {
    assert ':' !in c;
  }

  /** A well-formed `HH:MM:SS` reads back as its fields. */
  lemma ParseTimeString(f: Fields)
    requires ValidTime(f)
    ensures ParseFields(TimeString(f)) == Ok(f)
  {
    SplitTimeString(f);
    Pad2Value(f.hours);
    Pad2Value(f.minutes);
    Pad2Value(f.seconds);
  }

  /** Too few parts make the date invalid, and decoding fails. */
  lemma MissingPartFails(timeString: string, clock: Clock)
    requires |Split(timeString, ':')| < 3
    ensures StartDecode(timeString, clock) == Err(RangeError)
    ensures EndDecode(timeString, clock) == Err(RangeError)
  {
  }

  /** Empty parts count as zero: "::" decodes as midnight, and the end moves to tomorrow. */
  lemma EmptyPartsAreMidnight(clock: Clock)
    ensures EndDecode("::", clock) == Ok((clock.today + 1) * MsPerDay - clock.offsetMinutes * MsPerMinute)
  {
    var parts := Split("::", ':');
    assert TakeUntil("::", ':') == "";
    assert "::"[1..] == ":";
    assert TakeUntil(":", ':') == "";
    assert ":"[1..] == "";
    assert parts == ["", "", ""];
    assert ParseFields("::") == Ok(Fields(0, 0, 0));
  }

  /** The Asia/Tokyo time of day of an instant, in whole seconds. */
  function TokyoSecondOfDay(instant: int): (s: nat)
    ensures s < 86400
  {
    ((instant + TokyoOffsetMinutes * MsPerMinute) / MsPerSecond) % 86400
  }

  function TokyoFields(instant: int): (f: Fields)
    ensures ValidTime(f)
  {
    var s := TokyoSecondOfDay(instant);
    Fields(s / 3600, (s / 60) % 60, s % 60)
  }

  /** `formatTime`: `toLocaleTimeString` as 24-hour `HH:MM:SS` in Asia/Tokyo. */
  function FormatTime(instant: int): (r: string)
    ensures |r| == 8 && r[2] == ':' && r[5] == ':'
  {
    TimeString(TokyoFields(instant))
  }

  /** Both columns write with the same encoder. */
  function StartToDriver(instant: int): string { FormatTime(instant) }
  function EndToDriver(instant: int): string { FormatTime(instant) }

  /** The date is dropped: instants whole days apart encode identically, in both columns. */
  lemma EncodeIgnoresDate(instant: int, days: int)
    ensures StartToDriver(instant + days * MsPerDay) == StartToDriver(instant)
    ensures EndToDriver(instant + days * MsPerDay) == EndToDriver(instant)
    ensures StartToDriver(instant) == EndToDriver(instant)
  {
    var t := instant + TokyoOffsetMinutes * MsPerMinute;
    SecondsShift(t, days * 86400);
    assert instant + days * MsPerDay + TokyoOffsetMinutes * MsPerMinute == t + (days * 86400) * MsPerSecond;
    assert (t / 1000 + days * 86400) % 86400 == (t / 1000) % 86400;
  }

  lemma SecondsShift(a: int, k: int)
    ensures (a + k * MsPerSecond) / MsPerSecond == a / MsPerSecond + k
  {
    var q := a / MsPerSecond;
    assert a == q * 1000 + a % 1000;
    assert a + k * MsPerSecond == (q + k) * 1000 + a % 1000;
  }

  /** The encoding keeps the Tokyo time of day: it reads back as the Tokyo fields. */
  lemma EncodeKeepsTimeOfDay(instant: int)
    ensures ParseFields(FormatTime(instant)) == Ok(TokyoFields(instant))
  {
    ParseTimeString(TokyoFields(instant));
  }

  /**
   * In a process running in Asia/Tokyo, decoding a well-formed start time and
   * encoding it again gives back the stored string; the end column does the
   * same, midnight included.
   */
  lemma RoundTripInTokyo(f: Fields, today: int)
    requires ValidTime(f)
    ensures StartDecode(TimeString(f), Clock(today, TokyoOffsetMinutes)).Ok?
    ensures StartToDriver(StartDecode(TimeString(f), Clock(today, TokyoOffsetMinutes)).value) == TimeString(f)
    ensures EndDecode(TimeString(f), Clock(today, TokyoOffsetMinutes)).Ok?
    ensures EndToDriver(EndDecode(TimeString(f), Clock(today, TokyoOffsetMinutes)).value) == TimeString(f)
  {
    var clock := Clock(today, TokyoOffsetMinutes);
    ParseTimeString(f);
    var t := StartDecode(TimeString(f), clock).value;
    var secs := f.hours * 3600 + f.minutes * 60 + f.seconds;
    assert t + TokyoOffsetMinutes * MsPerMinute == 0 + (today * 86400 + secs) * MsPerSecond;
    SecondsShift(0, today * 86400 + secs);
    DayShift(today, secs);
    assert TokyoSecondOfDay(t) == secs;
    SecondsToFields(f);
    assert TokyoFields(t) == f;
    EncodeIgnoresDate(t, 1);
  }

  lemma DayShift(day: int, secs: nat)
    requires secs < 86400
    ensures (day * 86400 + secs) % 86400 == secs
  {
  }

  lemma SecondsToFields(f: Fields)
    requires ValidTime(f)
    ensures var secs := f.hours * 3600 + f.minutes * 60 + f.seconds;
      secs < 86400 && secs / 3600 == f.hours && (secs / 60) % 60 == f.minutes && secs % 60 == f.seconds
  {
  }
}

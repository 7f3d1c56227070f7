/**
 * The program page: the date label, the search for the program that follows
 * on the same channel, what the video area shows, and the timer that either
 * keeps re-rendering until the broadcast starts or, once it has ended, rolls
 * over to the next program or marks the page archived. Instants are integer
 * milliseconds; `now` is an input to every step.
 */
module ProgramPage {
  import opened Wrappers
  import opened Text

  /** The local calendar fields `new Date(date)` exposes (`getMonth()` is 0-based). */
  datatype LocalTime = LocalTime(month: nat, date: nat, hours: nat, minutes: nat)

  predicate ValidLocalTime(t: LocalTime) {
    t.month < 12 && 1 <= t.date <= 31 && t.hours < 24 && t.minutes < 60
  }

  /** `formatDate`: `M月D日 H:MM`, with a 1-based month and only the minutes padded. */
  function FormatDate(t: LocalTime): string {
    NatToString(t.month + 1) + "月" + NatToString(t.date) + "日 " + NatToString(t.hours) + ":" + Pad2(t.minutes)
  }

  /**
   * The label determines the time: different local times never share a
   * label, and each field reads back from its part of the label.
   */
  lemma FormatDateInjective(a: LocalTime, b: LocalTime)
    requires ValidLocalTime(a) && ValidLocalTime(b)
    requires FormatDate(a) == FormatDate(b)
    ensures a == b
  {
    FormatDateShape(a);
    FormatDateShape(b);
    SplitAfterDigits(NatToString(a.month + 1), '月', DateRest(a), NatToString(b.month + 1), DateRest(b));
    SplitAfterDigits(NatToString(a.date), '日', [' '] + TimeRest(a), NatToString(b.date), [' '] + TimeRest(b));
    assert TimeRest(a) == ([' '] + TimeRest(a))[1..];
    SplitAfterDigits(NatToString(a.hours), ':', Pad2(a.minutes), NatToString(b.hours), Pad2(b.minutes));
    NatToStringInjective(a.month + 1, b.month + 1);
    NatToStringInjective(a.date, b.date);
    NatToStringInjective(a.hours, b.hours);
    Pad2Value(a.minutes);
    Pad2Value(b.minutes);
  }

  function DateRest(t: LocalTime): string {
    NatToString(t.date) + ['日'] + ([' '] + TimeRest(t))
  }

  function TimeRest(t: LocalTime): string {
    NatToString(t.hours) + [':'] + Pad2(t.minutes)
  }

  lemma FormatDateShape(t: LocalTime)
    ensures FormatDate(t) == NatToString(t.month + 1) + ['月'] + DateRest(t)
  {
  }

  lemma NatToStringInjective(m: nat, n: nat)
    requires NatToString(m) == NatToString(n)
    ensures m == n
  {
    ParseNatToString(m);
    ParseNatToString(n);
  }

  /** The minutes part is always two digits and reads back as the minutes. */
  lemma FormatDateMinutes(t: LocalTime)
    requires ValidLocalTime(t)
    ensures var s := FormatDate(t);
      |s| >= 2 && AllDigits(s[|s| - 2..]) && ParseDigits(s[|s| - 2..]) == t.minutes
      && s[|s| - 3] == ':'
  {
    var s := FormatDate(t);
    assert s[|s| - 2..] == Pad2(t.minutes);
    Pad2Value(t.minutes);
  }

  const MsPerMinute: nat := 60000
  const MsPerHour: nat := 3600000
  const MsPerDay: nat := 86400000

  /** Leap years of the proleptic Gregorian calendar `Date` uses. */
  predicate IsLeapYear(y: int) {
    y % 4 == 0 && (y % 100 != 0 || y % 400 == 0)
  }

  function YearLength(y: int): nat {
    if IsLeapYear(y) then 366 else 365
  }

  /** The length of the 0-based month `m` of year `y`. */
  function MonthLength(y: int, m: nat): (n: nat)
    requires m < 12
    ensures 28 <= n <= 31
  {
    if m == 1 then (if IsLeapYear(y) then 29 else 28)
    else if m == 3 || m == 5 || m == 8 || m == 10 then 30
    else 31
  }

  /** The days of year `y` before its 0-based month `m`. */
  function DaysBeforeMonth(y: int, m: nat): nat
    requires m <= 12
  {
    if m == 0 then 0 else DaysBeforeMonth(y, m - 1) + MonthLength(y, m - 1)
  }

  lemma TwelveMonths(y: int)
    ensures DaysBeforeMonth(y, 12) == YearLength(y)
  {
    var leap := if IsLeapYear(y) then 1 else 0;
    assert MonthLength(y, 1) == 28 + leap;
    assert DaysBeforeMonth(y, 1) == 31;
    assert DaysBeforeMonth(y, 2) == 59 + leap;
    assert DaysBeforeMonth(y, 4) == 120 + leap;
    assert DaysBeforeMonth(y, 6) == 181 + leap;
    assert DaysBeforeMonth(y, 8) == 243 + leap;
    assert DaysBeforeMonth(y, 10) == 304 + leap;
  }

  /** The day number of 1 January of `y`, counted from 1 January 1970. */
  function YearStart(y: int): int
    decreases if y < 1970 then 1970 - y else y - 1970
  {
    if y == 1970 then 0
    else if y > 1970 then YearStart(y - 1) + YearLength(y - 1)
    else YearStart(y + 1) - YearLength(y)
  }

  lemma YearStartStep(y: int)
    ensures YearStart(y + 1) == YearStart(y) + YearLength(y)
  {
  }

  /** The day number of the 1-based day `date` of the 0-based month `month` of year `y`. */
  function DayNumber(y: int, month: nat, date: nat): int
    requires month < 12
  {
    YearStart(y) + DaysBeforeMonth(y, month) + date - 1
  }

  /**
   * The year and the 0-based day of that year that lie `days` days after
   * 1 January of `year`.
   */
  function YearAndDay(year: int, days: int): (r: (int, nat))
    ensures r.1 < YearLength(r.0)
    ensures YearStart(r.0) + r.1 == YearStart(year) + days
    decreases days < 0, if days < 0 then -days else days
  {
    if days < 0 then
      YearStartStep(year - 1);
      YearAndDay(year - 1, days + YearLength(year - 1))
    else if days < YearLength(year) then (year, days)
    else
      YearStartStep(year);
      YearAndDay(year + 1, days - YearLength(year))
  }

  /** The month, counted from `m`, and the 1-based day of the month of the 0-based day `doy` of year `y`. */
  function MonthAndDate(y: int, doy: nat, m: nat): (r: (nat, nat))
    requires m < 12 && DaysBeforeMonth(y, m) + doy < DaysBeforeMonth(y, 12)
    ensures m <= r.0 < 12 && 1 <= r.1 <= MonthLength(y, r.0)
    ensures DaysBeforeMonth(y, r.0) + r.1 - 1 == DaysBeforeMonth(y, m) + doy
    decreases 12 - m
  {
    if doy < MonthLength(y, m) then (m, doy + 1)
    else MonthAndDate(y, doy - MonthLength(y, m), m + 1)
  }

  /**
   * The calendar date of a day number: its year, 0-based month and
   * 1-based day, which count back to that day number.
   */
  function CivilDate(days: int): (r: (int, nat, nat))
    ensures r.1 < 12 && 1 <= r.2 <= MonthLength(r.0, r.1)
    ensures DayNumber(r.0, r.1, r.2) == days
  {
    var yd := YearAndDay(1970, days);
    TwelveMonths(yd.0);
    var md := MonthAndDate(yd.0, yd.1, 0);
    (yd.0, md.0, md.1)
  }

  /**
   * `new Date(instant)` read through `getMonth`, `getDate`, `getHours` and
   * `getMinutes` in a zone `offsetMinutes` ahead of UTC. The fields are a
   * valid local time, its date exists in its month of some year and
   * counts back to the local day of the instant, and its hour and minute
   * give the local time of day to the minute.
   */
  function LocalTimeOf(instant: int, offsetMinutes: int): (t: LocalTime)
    ensures ValidLocalTime(t)
    ensures exists y :: 1 <= t.date <= MonthLength(y, t.month)
                        && DayNumber(y, t.month, t.date) == (instant + offsetMinutes * MsPerMinute) / MsPerDay
    ensures var ms := (instant + offsetMinutes * MsPerMinute) % MsPerDay;
      t.hours * MsPerHour + t.minutes * MsPerMinute <= ms < t.hours * MsPerHour + t.minutes * MsPerMinute + MsPerMinute
  {
    var local := instant + offsetMinutes * MsPerMinute;
    var c := CivilDate(local / MsPerDay);
    var ms := local % MsPerDay;
    var t := LocalTime(c.1, c.2, ms / MsPerHour, (ms % MsPerHour) / MsPerMinute);
    assert 1 <= t.date <= MonthLength(c.0, t.month) && DayNumber(c.0, t.month, t.date) == local / MsPerDay;
    t
  }

  datatype Program = Program(id: string, channelId: string, episodeId: string, startAt: int, endAt: int)

  /** `.find(p => endTime === startTime)` over one channel's programs. */
  function FindStartingAt(programs: seq<Program>, endAt: int): (r: Option<Program>)
    ensures r.None? <==> forall i :: 0 <= i < |programs| ==> programs[i].startAt != endAt
    ensures r.Some? ==> exists i :: 0 <= i < |programs| && programs[i] == r.value && programs[i].startAt == endAt
                                    && forall j :: 0 <= j < i ==> programs[j].startAt != endAt
  {
    if programs == [] then None
    else if programs[0].startAt == endAt then Some(programs[0])
    else
      var r := FindStartingAt(programs[1..], endAt);
      assert forall i :: 1 <= i < |programs| ==> programs[i] == programs[1..][i - 1];
      r
  }

  /** `nextProgram`: the first program of the same channel that starts when this one ends. */
  function NextProgram(timetable: map<string, seq<Program>>, program: Program): Option<Program> {
    if program.channelId !in timetable then None else FindStartingAt(timetable[program.channelId], program.endAt)
  }

  /**
   * The next program is found exactly when the channel has a program starting
   * at this one's end, and it is the first such program.
   */
  lemma NextProgramIsFirstFollower(timetable: map<string, seq<Program>>, program: Program)
    ensures var r := NextProgram(timetable, program);
      && (r.None? <==> (program.channelId !in timetable
                        || forall q :: q in timetable[program.channelId] ==> q.startAt != program.endAt))
      && (r.Some? ==> r.value.startAt == program.endAt && r.value in timetable[program.channelId])
  {
    if program.channelId in timetable {
      var programs := timetable[program.channelId];
      assert forall q :: q in programs ==> exists i :: 0 <= i < |programs| && programs[i] == q;
    }
  }

  /** `nextProgram?.id`, where a missing program gives the falsy empty id. */
  function NextId(next: Option<Program>): string {
    if next.Some? then next.value.id else ""
  }

  /** The timer the page has scheduled, if any. */
  datatype Timer = NoTimer | RefreshTimer | RolloverTimer

  /** `navigate(path, { preventScrollReset, replace, state: { loading } })` */
  datatype Navigation = Navigation(path: string, preventScrollReset: bool, replace: bool, loading: string)

  /**
   * What the page holds between steps: `isArchivedRef.current`, the
   * `isBroadcastStarted` of the last render, the pending timer, the
   * navigations requested so far and the number of renders.
   */
  datatype PageState = PageState(isArchived: bool, started: bool, timer: Timer, navigations: seq<Navigation>, renders: nat)

  function RolloverNavigation(nextId: string): Navigation {
    Navigation("/programs/" + nextId, true, true, "none")
  }

  /** The effect body: nothing when archived, else a refresh or a rollover timer. */
  function Effect(s: PageState): PageState {
    if s.isArchived then s
    else if !s.started then s.(timer := RefreshTimer)
    else s.(timer := RolloverTimer)
  }

  /**
   * A render at `now`: `isBroadcastStarted` is recomputed, and when it has
   * changed the effect's cleanup clears the timer and the effect runs again.
   */
  function Render(s: PageState, program: Program, now: int): PageState {
    var started := program.startAt <= now;
    var s' := s.(renders := s.renders + 1);
    if started == s.started then s' else Effect(s'.(started := started, timer := NoTimer))
  }

  /** The first render and effect run at `now`. */
  function Mount(program: Program, now: int): PageState {
    Effect(PageState(program.endAt <= now, program.startAt <= now, NoTimer, [], 1))
  }

  /** The pending timer fires at `now`. */
  function Step(s: PageState, program: Program, next: Option<Program>, now: int): PageState {
    match s.timer
    case NoTimer => s
    case RefreshTimer => Render(s, program, now)
    case RolloverTimer =>
      if now < program.endAt then s
      else if NextId(next) != "" then
        s.(timer := NoTimer, navigations := s.navigations + [RolloverNavigation(NextId(next))])
      else Render(s.(isArchived := true, timer := NoTimer), program, now)
  }

  /**
   * The page's invariant: a refresh timer only before the start, a rollover
   * timer only once started, neither once archived, and at most one
   * navigation, after which no timer is left.
   */
  predicate Valid(s: PageState) {
    && (s.timer == RefreshTimer ==> !s.started && !s.isArchived)
    && (s.timer == RolloverTimer ==> s.started && !s.isArchived)
    && |s.navigations| <= 1
    && (|s.navigations| == 1 ==> s.timer == NoTimer)
  }

  /** The page starts archived exactly when the program has ended, and then schedules nothing. */
  lemma MountState(program: Program, now: int)
    ensures var s := Mount(program, now);
      && Valid(s)
      && (s.isArchived <==> program.endAt <= now)
      && (s.started <==> program.startAt <= now)
      && (s.isArchived ==> s.timer == NoTimer)
      && (!s.isArchived && !s.started ==> s.timer == RefreshTimer)
      && (!s.isArchived && s.started ==> s.timer == RolloverTimer)
  {
  }

  /** Every step keeps the invariant. */
  lemma StepKeepsValid(s: PageState, program: Program, next: Option<Program>, now: int)
    requires Valid(s)
    ensures Valid(Step(s, program, next, now))
  {
  }

  /** Once archived, the page stays archived and never schedules or navigates again. */
  lemma ArchivedIsFinal(s: PageState, program: Program, next: Option<Program>, now: int)
    requires Valid(s) && s.isArchived
    ensures Step(s, program, next, now) == s
  {
  }

  /** Before the start, a tick only re-renders; it never navigates or archives. */
  lemma RefreshTickNeverNavigates(s: PageState, program: Program, next: Option<Program>, now: int)
    requires Valid(s) && s.timer == RefreshTimer
    ensures var t := Step(s, program, next, now);
      && t.navigations == s.navigations
      && !t.isArchived
      && t.renders == s.renders + 1
      && (t.timer == RefreshTimer <==> now < program.startAt)
      && (t.timer == RolloverTimer <==> program.startAt <= now)
  {
  }

  /** While the program is on, a rollover tick only reschedules itself. */
  lemma RolloverBeforeEndChangesNothing(s: PageState, program: Program, next: Option<Program>, now: int)
    requires s.timer == RolloverTimer && now < program.endAt
    ensures Step(s, program, next, now) == s
  {
  }

  /**
   * At or after the end, the rollover tick stops: it navigates in place to
   * the next program when that has an id, and otherwise archives the page.
   */
  lemma RolloverAtEnd(s: PageState, program: Program, next: Option<Program>, now: int)
    requires Valid(s) && s.timer == RolloverTimer && program.endAt <= now
    ensures var t := Step(s, program, next, now);
      && t.timer == NoTimer
      && (NextId(next) != "" ==>
            t.navigations == s.navigations + [Navigation("/programs/" + next.value.id, true, true, "none")]
            && !t.isArchived)
      && (NextId(next) == "" ==> t.isArchived && t.navigations == s.navigations)
  {
  }

  /** What the video area of the page shows. */
  datatype Display =
    | ArchivedView(thumbnailPriority: bool, missedViewingLink: string)
    | PlayerView(playlistUrl: string)
    | ScheduledView(message: string)

  /**
   * The video area: archived first, then the live player, else the
   * scheduled start, `formatDate(program.startAt)` read in a zone
   * `offsetMinutes` ahead of UTC.
   */
  function Show(s: PageState, program: Program, offsetMinutes: int): Display {
    if s.isArchived then ArchivedView(true, "/episodes/" + program.episodeId)
    else if s.started then PlayerView("/streams/channel/" + program.channelId + "/playlist.m3u8")
    else ScheduledView("この番組は " + FormatDate(LocalTimeOf(program.startAt, offsetMinutes)) + " に放送予定です")
  }

  /**
   * Archived wins over started, and the scheduled message shows only before
   * the start, carrying the local date and time at which the program starts.
   */
  lemma ShowPrecedence(s: PageState, program: Program, offsetMinutes: int)
    ensures Show(s, program, offsetMinutes).ArchivedView? <==> s.isArchived
    ensures Show(s, program, offsetMinutes).PlayerView? <==> !s.isArchived && s.started
    ensures Show(s, program, offsetMinutes).ScheduledView? <==> !s.isArchived && !s.started
    ensures Show(s, program, offsetMinutes).ScheduledView? ==>
      Contains(Show(s, program, offsetMinutes).message, FormatDate(LocalTimeOf(program.startAt, offsetMinutes)))
  {
    if !s.isArchived && !s.started {
      var when := FormatDate(LocalTimeOf(program.startAt, offsetMinutes));
      var m := Show(s, program, offsetMinutes).message;
      var pre := "この番組は ";
      assert m == pre + when + " に放送予定です";
      ContainsAfterPrefix(pre, when, " に放送予定です");
    }
  }

  /** A program starting at the epoch is announced in Tokyo (UTC+9) for 1 January, 9:00. */
  lemma ScheduledLabelExample()
    ensures LocalTimeOf(0, 540) == LocalTime(0, 1, 9, 0)
    ensures FormatDate(LocalTimeOf(0, 540)) == "1月1日 9:00"
  {
    EpochInTokyo();
    NineOClockLabel();
  }

  lemma NineOClockLabel()
    ensures FormatDate(LocalTime(0, 1, 9, 0)) == "1月1日 9:00"
  {
    assert NatToString(1) == "1" && NatToString(9) == "9" && Pad2(0) == "00";
  }

  lemma EpochInTokyo()
    ensures LocalTimeOf(0, 540) == LocalTime(0, 1, 9, 0)
  {
    assert YearAndDay(1970, 0) == (1970, 0);
    assert MonthAndDate(1970, 0, 0) == (0, 1);
    assert CivilDate(0) == (1970, 0, 1);
    assert (0 + 540 * MsPerMinute) / MsPerDay == 0 && (0 + 540 * MsPerMinute) % MsPerDay == 32400000;
  }

  lemma {:induction false} ContainsAfterPrefix(pre: string, sub: string, post: string)
    ensures Contains(pre + sub + post, sub)
  {
    if pre == [] {
      assert (pre + sub + post)[..|sub|] == sub;
    } else {
      assert (pre + sub + post)[1..] == pre[1..] + sub + post;
      ContainsAfterPrefix(pre[1..], sub, post);
    }
  }

  /**
   * The mounted page: `isArchivedRef`, the last `isBroadcastStarted`, the
   * pending timeout and what it has asked the router to do.
   */
  class ProgramPageView {
    const program: Program
    const next: Option<Program>
    var isArchived: bool
    var started: bool
    var timer: Timer
    var navigations: seq<Navigation>
    var renders: nat

    function State(): PageState
      reads this
    {
      PageState(isArchived, started, timer, navigations, renders)
    }

    /** First render at `now` followed by the mount effect. */
    constructor(program: Program, next: Option<Program>, now: int)
      ensures this.program == program && this.next == next
      ensures State() == Mount(program, now)
    {
      this.program := program;
      this.next := next;
      isArchived := program.endAt <= now;
      started := program.startAt <= now;
      timer := NoTimer;
      navigations := [];
      renders := 1;
      new;
      RunEffect();
    }

    method RunEffect()
      modifies this
      ensures State() == Effect(old(State()))
    {
      if isArchived {
        return;
      }
      if !started {
        timer := RefreshTimer;
        return;
      }
      timer := RolloverTimer;
    }

    method Rerender(now: int)
      modifies this
      ensures State() == Render(old(State()), program, now)
    {
      renders := renders + 1;
      var nowStarted := program.startAt <= now;
      if nowStarted != started {
        timer := NoTimer;
        started := nowStarted;
        RunEffect();
      }
    }

    /** The pending timeout fires at `now`. */
    method Tick(now: int)
      modifies this
      ensures State() == Step(old(State()), program, next, now)
    {
      match timer
      case NoTimer =>
      case RefreshTimer =>
        Rerender(now);
      case RolloverTimer =>
        if now < program.endAt {
          return;
        }
        if NextId(next) != "" {
          timer := NoTimer;
          navigations := navigations + [RolloverNavigation(NextId(next))];
        } else {
          isArchived := true;
          timer := NoTimer;
          Rerender(now);
        }
    }
  }
}

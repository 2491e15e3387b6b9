/**
 * The add/edit-time dialog: its initial field values, the duration it
 * shows, and what submitting does to the store. Dates are local day numbers
 * and times are the "HH:MM" values of the time inputs; the local time zone
 * is taken to be UTC, so a day is always 86400000 ms long.
 */
module AddTime {
  import opened TimeTypes
  import opened TextFormat
  import opened Utils
  import opened SessionStore
  import opened TimerMachine

  /** The value of a time input, "HH:MM". */
  datatype TimeOfDay = TimeOfDay(hour: int, minute: int)

  predicate ValidTime(t: TimeOfDay) {
    0 <= t.hour < 24 && 0 <= t.minute < 60
  }

  /** The local day number of an instant. */
  function DayOf(ms: int): int {
    ms / DAY_MS
  }

  /** The local hours and minutes of an instant (seconds are dropped). */
  function TimeOf(ms: int): (t: TimeOfDay)
    ensures ValidTime(t)
  {
    var r := ms % DAY_MS;
    TimeOfDay(r / HOUR_MS, (r % HOUR_MS) / MINUTE_MS)
  }

  /** `new Date(`${date}T${time}`)` for a day number and a time of day. */
  function LocalMs(day: int, t: TimeOfDay): int {
    day * DAY_MS + t.hour * HOUR_MS + t.minute * MINUTE_MS
  }

  /** The dialog's options; every field may be absent. */
  datatype Options = Options(
    projectId: Option<string>, editIndex: Option<int>, session: Option<Session>, date: Option<int>)

  const NO_OPTIONS: Options := Options(None, None, None, None)

  /** isEditing: both an index and a session were supplied. */
  predicate IsEditing(opts: Options) {
    opts.editIndex.Some? && opts.session.Some?
  }

  /** The project preselected for a new entry: the one asked for, else the
      first project, else the empty id. */
  function DefaultProjectId(asked: Option<string>, ps: seq<Project>): string {
    asked.GetOr(if |ps| > 0 then ps[0].id else "")
  }

  /** The initial start and end of a new entry: the hour before the current
      one (never before midnight) up to the current hour, on the hour. */
  function DefaultTimes(endHour: int): (TimeOfDay, TimeOfDay) {
    var startHour := if endHour - 1 > 0 then endHour - 1 else 0;
    (TimeOfDay(startHour, 0), TimeOfDay(endHour, 0))
  }

  /** computeDurationMs: an end not after the start is taken to be on the
      next day. */
  function ComputeDurationMs(day: int, startTime: TimeOfDay, endTime: TimeOfDay): int {
    var start := LocalMs(day, startTime);
    var end := LocalMs(day, endTime);
    var end' := if end <= start then end + DAY_MS else end;
    end' - start
  }

  /** The interval submit builds, by its own copy of the same rule. */
  function SubmitInterval(day: int, startTime: TimeOfDay, endTime: TimeOfDay): (int, int) {
    var start := LocalMs(day, startTime);
    var end := LocalMs(day, endTime);
    (start, if end <= start then end + DAY_MS else end)
  }

  /** toDateStr: "YYYY-MM-DD" from the full year, the 0-based month and the
      day of the month. */
  function ToDateStr(year: int, month: int, dayOfMonth: int): string {
    IntToString(year) + "-" + Pad2(month + 1) + "-" + Pad2(dayOfMonth)
  }

  /** toTimeStr: the same text formatHHMM gives. */
  function ToTimeStr(t: TimeOfDay): string
    requires ValidTime(t)
  {
    FormatHHMM(t.hour, t.minute)
  }

  /** How a time input's "HH:MM" text reads back. */
  function ParseTime(s: string): Option<TimeOfDay> {
    if |s| == 5 && s[2] == ':' && AllDigits(s[..2]) && AllDigits(s[3..])
    then Some(TimeOfDay(ParseNat(s[..2]), ParseNat(s[3..])))
    else None
  }

  // ----------------------------------------------------------------- lemmas

  /** The wrap rule: for times on one date the duration is more than zero
      and at most a day; the end moves by exactly one day when it is not
      after the start, and equal times give a full day. */
  lemma {:induction false} DurationWithinADay(day: int, startTime: TimeOfDay, endTime: TimeOfDay)
    requires ValidTime(startTime) && ValidTime(endTime)
    ensures 0 < ComputeDurationMs(day, startTime, endTime) <= DAY_MS
    ensures LocalMs(day, endTime) <= LocalMs(day, startTime) ==>
      ComputeDurationMs(day, startTime, endTime) == LocalMs(day, endTime) + DAY_MS - LocalMs(day, startTime)
    ensures LocalMs(day, endTime) > LocalMs(day, startTime) ==>
      ComputeDurationMs(day, startTime, endTime) == LocalMs(day, endTime) - LocalMs(day, startTime)
    ensures startTime == endTime ==> ComputeDurationMs(day, startTime, endTime) == DAY_MS
  {
  }

  /** The stored session starts at the chosen start and lasts exactly the
      duration the dialog shows. */
  lemma {:induction false} SubmitMatchesDisplayed(day: int, startTime: TimeOfDay, endTime: TimeOfDay)
    ensures SubmitInterval(day, startTime, endTime).0 == LocalMs(day, startTime)
    ensures SubmitInterval(day, startTime, endTime).1 - SubmitInterval(day, startTime, endTime).0
      == ComputeDurationMs(day, startTime, endTime)
  {
  }

  /** Default hours: 0 <= start <= end <= 23; one hour apart, except in the
      hour after midnight, where start equals end and the entry is a day. */
  lemma {:induction false} DefaultTimesBounds(endHour: int)
    requires 0 <= endHour < 24
    ensures var (st, et) := DefaultTimes(endHour);
      ValidTime(st) && ValidTime(et) && 0 <= st.hour <= et.hour <= 23 &&
      (endHour == 0 ==> st == et) &&
      (endHour > 0 ==> st.hour == endHour - 1)
    ensures var (st, et) := DefaultTimes(endHour);
      forall day :: ComputeDurationMs(day, st, et) == (if endHour == 0 then DAY_MS else HOUR_MS)
  {
  }

  /** An instant is its day plus its time of day plus the dropped seconds. */
  lemma {:induction false} InstantSplit(ms: int)
    ensures LocalMs(DayOf(ms), TimeOf(ms)) == ms - ms % MINUTE_MS
  {
    var r := ms % DAY_MS;
    assert ms == DayOf(ms) * DAY_MS + r;
    var q := r % HOUR_MS;
    assert r == (r / HOUR_MS) * HOUR_MS + q;
    assert q == (q / MINUTE_MS) * MINUTE_MS + q % MINUTE_MS;
    assert ms % MINUTE_MS == q % MINUTE_MS by {
      assert ms == DayOf(ms) * (1440 * MINUTE_MS) + (r / HOUR_MS) * (60 * MINUTE_MS) + (q / MINUTE_MS) * MINUTE_MS + q % MINUTE_MS;
    }
  }

  /** Opening an existing session and saving it unchanged gives the session
      back when it starts and ends on whole minutes and lasts more than zero
      and at most one day. */
  lemma {:induction false} EditRoundTrip(s: Session)
    requires s.start % MINUTE_MS == 0 && s.end % MINUTE_MS == 0
    requires s.start < s.end <= s.start + DAY_MS
    ensures SubmitInterval(DayOf(s.start), TimeOf(s.start), TimeOf(s.end)) == (s.start, s.end)
  {
    InstantSplit(s.start);
    InstantSplit(s.end);
    var d := DayOf(s.start);
    var e := DayOf(s.end);
    assert d <= e <= d + 1;
    assert LocalMs(d, TimeOf(s.end)) == s.end - (e - d) * DAY_MS;
  }

  /** `r` is a "YYYY-MM-DD" text whose fields read as the given numbers. */
  predicate ReadsAsDate(r: string, year: int, month1: int, dayOfMonth: int) {
    |r| == 10 && r[4] == '-' && r[7] == '-' &&
    AllDigits(r[..4]) && AllDigits(r[5..7]) && AllDigits(r[8..]) &&
    ParseNat(r[..4]) == year && ParseNat(r[5..7]) == month1 && ParseNat(r[8..]) == dayOfMonth
  }

  /** toDateStr of a four-digit year is ten characters, dashes at 4 and 7,
      and its fields read back as the year, the 1-based month and the day. */
  lemma {:induction false} ToDateStrRoundTrip(year: int, month: int, dayOfMonth: int)
    requires 1000 <= year <= 9999 && 0 <= month < 12 && 1 <= dayOfMonth <= 31
    ensures ReadsAsDate(ToDateStr(year, month, dayOfMonth), year, month + 1, dayOfMonth)
  {
    var y, m, d := IntToString(year), Pad2(month + 1), Pad2(dayOfMonth);
    assert y == NatToString(year);
    NatToStringLength(year);
    ParseNatToString(year);
    Pad2RoundTrip(month + 1);
    Pad2RoundTrip(dayOfMonth);
    assert ToDateStr(year, month, dayOfMonth) == y + "-" + m + "-" + d;
    DateFields(y, m, d);
  }

  lemma {:induction false} DateFields(y: string, m: string, d: string)
    requires |y| == 4 && |m| == 2 && |d| == 2
    requires AllDigits(y) && AllDigits(m) && AllDigits(d)
    ensures ReadsAsDate(y + "-" + m + "-" + d, ParseNat(y), ParseNat(m), ParseNat(d))
  {
    var r := y + "-" + m + "-" + d;
    assert |r| == 10 && r[4] == '-' && r[7] == '-';
    assert r[..4] == y;
    assert r[5..7] == m;
    assert r[8..] == d;
  }

  /** toTimeStr reads back as the time it shows. */
  lemma {:induction false} ToTimeStrRoundTrip(t: TimeOfDay)
    requires ValidTime(t)
    ensures ParseTime(ToTimeStr(t)) == Some(t)
  {
    FormatHHMMRoundTrip(t.hour, t.minute);
  }

  // ------------------------------------------------------------------ class

  class AddTimeModal {
    const timer: Timer
    const store: Store
    const opts: Options
    var projectId: string
    var date: int
    var startTime: TimeOfDay
    var endTime: TimeOfDay

    /** Editing shows the session's project, date and clock times; a new
        entry gets the default project and the hour up to `now` (or the
        date asked for). */
    constructor (timer: Timer, store: Store, opts: Options, now: int)
      ensures this.timer == timer && this.store == store && this.opts == opts
      ensures ValidTime(startTime) && ValidTime(endTime)
      ensures IsEditing(opts) ==>
        var s := opts.session.value;
        projectId == s.project && date == DayOf(s.start) &&
        startTime == TimeOf(s.start) && endTime == TimeOf(s.end)
      ensures !IsEditing(opts) ==>
        var at := opts.date.GetOr(now);
        projectId == DefaultProjectId(opts.projectId, store.projects) && date == DayOf(at) &&
        (startTime, endTime) == DefaultTimes(TimeOf(at).hour)
    {
      this.timer := timer;
      this.store := store;
      this.opts := opts;
      if IsEditing(opts) {
        var s := opts.session.value;
        projectId := s.project;
        date := DayOf(s.start);
        startTime := TimeOf(s.start);
        endTime := TimeOf(s.end);
      } else {
        var at := opts.date.GetOr(now);
        projectId := DefaultProjectId(opts.projectId, store.projects);
        date := DayOf(at);
        var endHour := TimeOf(at).hour;
        var startHour := if endHour - 1 > 0 then endHour - 1 else 0;
        startTime := TimeOfDay(startHour, 0);
        endTime := TimeOfDay(endHour, 0);
      }
    }

    function IsEditingNow(): bool {
      IsEditing(opts)
    }

    function DurationMs(): int
      reads this
    {
      ComputeDurationMs(date, startTime, endTime)
    }

    /** Builds the session by the wrap rule, then either replaces the edited
        index (a no-op when it is out of range) or appends; never both.
        'change' fires either way. */
    method Submit()
      modifies store, timer`effects
      ensures var iv := SubmitInterval(date, startTime, endTime);
        var s := Session(projectId, iv.0, iv.1);
        if IsEditing(opts) then
          var i := opts.editIndex.value;
          if 0 <= i < |old(store.sessions)|
          then store.sessions == old(store.sessions)[i := s] && store.saves == old(store.saves) + 1
          else store.sessions == old(store.sessions) && store.saves == old(store.saves)
        else store.sessions == old(store.sessions) + [s] && store.saves == old(store.saves) + 1
      ensures store.projects == old(store.projects)
      ensures timer.effects == old(timer.effects) + [Change]
    {
      var iv := SubmitInterval(date, startTime, endTime);
      var session := Session(projectId, iv.0, iv.1);
      if IsEditing(opts) {
        store.UpdateSession(opts.editIndex.value, session);
      } else {
        store.AddSession(session);
      }
      timer.NotifyChange();
    }
  }
}

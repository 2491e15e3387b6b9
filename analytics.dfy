/**
 * The analytics section: the week and month periods, the per-day chart
 * rows, the per-project breakdowns sorted by time, the summary and the
 * averages' divisor. The wall clock is replaced by a `Today` record: today's
 * day number (days since 1 January 1970), its weekday as getDay() gives it
 * (Sunday = 0), its day of the month and the length of the month.
 */
module Analytics {
  import opened TimeTypes
  import opened TextFormat
  import opened Utils
  import opened SessionStore

  datatype Mode = Week | Month

  datatype Today = Today(day: int, weekday: int, dayOfMonth: int, monthLength: int)

  /** What a calendar date guarantees about these readings. Day 0, the
      first of January 1970, was a Thursday (getDay() = 4). The month's
      length and today's place in it are taken as given. */
  predicate ValidToday(t: Today) {
    t.weekday == (t.day + 4) % 7 && 28 <= t.monthLength <= 31 && 1 <= t.dayOfMonth <= t.monthLength
  }

  // ------------------------------------------------------------- calendar

  /** `(getDay() + 6) % 7`: the weekday counted from Monday. */
  function MondayIndex(weekday: int): int {
    (weekday + 6) % 7
  }

  /** getDay() of day number `d`, counted from today's. */
  function WeekdayOf(t: Today, d: int): int {
    (t.weekday + (d - t.day)) % 7
  }

  /** getDate() of day number `d`, for a day in today's month. */
  function DayOfMonthOf(t: Today, d: int): int {
    t.dayOfMonth + (d - t.day)
  }

  function WeekStartDay(t: Today): int {
    t.day - MondayIndex(t.weekday)
  }

  function MonthStartDay(t: Today): int {
    t.day - (t.dayOfMonth - 1)
  }

  /** getPeriodRange: [start, end) in ms. */
  function PeriodRange(mode: Mode, t: Today): (int, int) {
    match mode
    case Week => (WeekStartDay(t) * DAY_MS, (WeekStartDay(t) + 7) * DAY_MS)
    case Month => (MonthStartDay(t) * DAY_MS, (MonthStartDay(t) + t.monthLength) * DAY_MS)
  }

  /** The average's divisor: the days of the period up to and including today. */
  function DaysInPeriod(mode: Mode, t: Today): int {
    match mode
    case Week => MondayIndex(t.weekday) + 1
    case Month => t.dayOfMonth
  }

  /** The Monday index maps Monday to 0 and Sunday to 6, every other day one
      down, and always lies in 0..6. */
  lemma {:induction false} MondayIndexMaps(weekday: int)
    requires 0 <= weekday < 7
    ensures 0 <= MondayIndex(weekday) < 7
    ensures MondayIndex(weekday) == if weekday == 0 then 6 else weekday - 1
  {
  }

  /** The week runs from the midnight of this week's Monday for exactly seven
      days; the month from the midnight of its first day to that of the next
      month's first day. Both contain today. */
  lemma {:induction false} PeriodRangeFacts(t: Today)
    requires ValidToday(t)
    ensures var (a, b) := PeriodRange(Week, t);
      a == WeekStartDay(t) * DAY_MS && b - a == 7 * DAY_MS && a <= t.day * DAY_MS < b &&
      WeekdayOf(t, WeekStartDay(t)) == 1
    ensures var (a, b) := PeriodRange(Month, t);
      a == MonthStartDay(t) * DAY_MS && b - a == t.monthLength * DAY_MS && a <= t.day * DAY_MS < b &&
      DayOfMonthOf(t, MonthStartDay(t)) == 1 && DayOfMonthOf(t, MonthStartDay(t) + t.monthLength - 1) == t.monthLength
  {
    MondayIndexMaps(t.weekday);
  }

  /** The divisor is at least one, at most the period's length, and counts
      the days from the period's first day through today. */
  lemma {:induction false} DaysInPeriodBounds(mode: Mode, t: Today)
    requires ValidToday(t)
    ensures 1 <= DaysInPeriod(mode, t)
    ensures mode == Week ==> DaysInPeriod(mode, t) <= 7 && WeekStartDay(t) + DaysInPeriod(mode, t) - 1 == t.day
    ensures mode == Month ==> DaysInPeriod(mode, t) <= t.monthLength && MonthStartDay(t) + DaysInPeriod(mode, t) - 1 == t.day
  {
    MondayIndexMaps(t.weekday);
  }

  /** The store's week starts on a Sunday, never on the period's Monday. */
  lemma {:induction false} StoreWeekStartsOnSunday(t: Today)
    requires ValidToday(t)
    ensures WeekdayOf(t, StoreWeekStartDay(t.day, t.weekday)) == 0
    ensures StoreWeekStartDay(t.day, t.weekday) != WeekStartDay(t)
  {
    MondayIndexMaps(t.weekday);
  }

  // --------------------------------------------------------------- sorting

  /** Non-increasing by `key`. */
  predicate NonIncreasing<T>(s: seq<T>, key: T -> int) {
    forall i, j :: 0 <= i < j < |s| ==> key(s[i]) >= key(s[j])
  }

  function SumKeys<T>(s: seq<T>, key: T -> int): int {
    if s == [] then 0 else key(s[0]) + SumKeys(s[1..], key)
  }

  /** Places `x` after every element whose key is at least its own. */
  function Insert<T>(x: T, s: seq<T>, key: T -> int): seq<T> {
    if s == [] then [x]
    else if key(s[0]) >= key(x) then [s[0]] + Insert(x, s[1..], key)
    else [x] + s
  }

  /** `.sort((a, b) => b.time - a.time)`: a stable sort on descending key,
      by insertion of each element after the ones before it. */
  function SortByTime<T>(s: seq<T>, key: T -> int): seq<T> {
    if s == [] then [] else Insert(s[|s| - 1], SortByTime(s[..|s| - 1], key), key)
  }

  lemma {:induction false} InsertPermutes<T>(x: T, s: seq<T>, key: T -> int)
    ensures multiset(Insert(x, s, key)) == multiset(s) + multiset{x}
  {
    if s != [] && key(s[0]) >= key(x) {
      InsertPermutes(x, s[1..], key);
      calc {
        multiset(Insert(x, s, key));
        multiset([s[0]] + Insert(x, s[1..], key));
        multiset{s[0]} + multiset(s[1..]) + multiset{x};
        { assert s == [s[0]] + s[1..]; }
        multiset(s) + multiset{x};
      }
    }
  }

  lemma {:induction false} InsertSumKeys<T>(x: T, s: seq<T>, key: T -> int)
    ensures SumKeys(Insert(x, s, key), key) == key(x) + SumKeys(s, key)
  {
    if s != [] {
      if key(s[0]) >= key(x) {
        InsertSumKeys(x, s[1..], key);
        assert Insert(x, s, key) == [s[0]] + Insert(x, s[1..], key);
      } else {
        assert Insert(x, s, key)[1..] == s;
      }
    }
  }

  /** Inserting an element no greater than a bound keeps every key below it. */
  lemma {:induction false} InsertBelow<T>(x: T, s: seq<T>, key: T -> int, m: int)
    requires key(x) <= m
    requires forall i :: 0 <= i < |s| ==> key(s[i]) <= m
    ensures forall i :: 0 <= i < |Insert(x, s, key)| ==> key(Insert(x, s, key)[i]) <= m
  {
    if s != [] && key(s[0]) >= key(x) {
      InsertBelow(x, s[1..], key, m);
      assert Insert(x, s, key) == [s[0]] + Insert(x, s[1..], key);
    }
  }

  lemma {:induction false} InsertSorted<T>(x: T, s: seq<T>, key: T -> int)
    requires NonIncreasing(s, key)
    ensures NonIncreasing(Insert(x, s, key), key)
  {
    if s != [] && key(s[0]) >= key(x) {
      InsertSorted(x, s[1..], key);
      InsertBelow(x, s[1..], key, key(s[0]));
      assert Insert(x, s, key) == [s[0]] + Insert(x, s[1..], key);
    }
  }

  lemma {:induction false} SumKeysSnoc<T>(s: seq<T>, x: T, key: T -> int)
    ensures SumKeys(s + [x], key) == SumKeys(s, key) + key(x)
  {
    if s == [] {
      assert s + [x] == [x];
    } else {
      assert (s + [x])[1..] == s[1..] + [x];
      SumKeysSnoc(s[1..], x, key);
    }
  }

  /** The sorted list is in non-increasing order, is a permutation of the
      input, and so has the same length and the same key total. */
  lemma {:induction false} SortByTimeFacts<T>(s: seq<T>, key: T -> int)
    ensures NonIncreasing(SortByTime(s, key), key)
    ensures multiset(SortByTime(s, key)) == multiset(s)
    ensures |SortByTime(s, key)| == |s|
    ensures SumKeys(SortByTime(s, key), key) == SumKeys(s, key)
  {
    if s != [] {
      var init, x := s[..|s| - 1], s[|s| - 1];
      assert s == init + [x];
      SortByTimeFacts(init, key);
      InsertSorted(x, SortByTime(init, key), key);
      InsertPermutes(x, SortByTime(init, key), key);
      InsertSumKeys(x, SortByTime(init, key), key);
      SumKeysSnoc(init, x, key);
      assert |SortByTime(s, key)| == |multiset(SortByTime(s, key))|;
    }
  }

  // ------------------------------------------------------ project totals

  /** One project's clamped total in a range. */
  datatype ProjectTime = ProjectTime(id: string, time: int)

  /** One coloured bar segment of a chart column. */
  datatype Segment = Segment(color: string, time: int)

  function ProjectTimeKey(p: ProjectTime): int {
    p.time
  }

  function SegmentKey(g: Segment): int {
    g.time
  }

  /** The clamped total of each project listed in `ks`, in that order. */
  function ProjectTimesOf(ss: seq<Session>, ks: seq<string>, a: int, b: int): seq<ProjectTime> {
    if ks == [] then []
    else [ProjectTime(ks[0], ClampedTotal(SessionsOf(ss, ks[0]), a, b))] + ProjectTimesOf(ss, ks[1..], a, b)
  }

  /** `Object.entries(groupByProject(ss)).map(...)`: one total per project,
      in first-seen order. */
  function ProjectTimes(ss: seq<Session>, a: int, b: int): seq<ProjectTime> {
    ProjectTimesOf(ss, ProjectOrder(ss), a, b)
  }

  /** `getProject(id)?.color ?? '#888'`. */
  function ColorOf(ps: seq<Project>, id: string): string {
    match FindProject(ps, id)
    case None => "#888"
    case Some(p) => p.color
  }

  /** An unknown project is drawn grey; a known one in the colour of the
      first project with its id. */
  lemma {:induction false} ColorOfFacts(ps: seq<Project>, id: string)
    ensures (forall p :: p in ps ==> p.id != id) ==> ColorOf(ps, id) == "#888"
    ensures (exists p :: p in ps && p.id == id) ==>
      exists i :: 0 <= i < |ps| && ps[i].id == id && ColorOf(ps, id) == ps[i].color && (forall j :: 0 <= j < i ==> ps[j].id != id)
  {
    FindProjectFacts(ps, id);
  }

  function ToSegments(ps: seq<Project>, pts: seq<ProjectTime>): seq<Segment> {
    if pts == [] then [] else [Segment(ColorOf(ps, pts[0].id), pts[0].time)] + ToSegments(ps, pts[1..])
  }

  /** getProjectBreakdown. */
  function ProjectBreakdown(ps: seq<Project>, ss: seq<Session>, a: int, b: int): seq<Segment> {
    SortByTime(ToSegments(ps, ProjectTimes(ss, a, b)), SegmentKey)
  }

  /** The sorted rows of renderProjectSummary, or None for "No data". */
  function ProjectSummary(ss: seq<Session>, a: int, b: int): Option<seq<ProjectTime>> {
    if |ss| == 0 then None else Some(SortByTime(ProjectTimes(ss, a, b), ProjectTimeKey))
  }

  lemma {:induction false} ProjectTimesOfMembers(ss: seq<Session>, ks: seq<string>, a: int, b: int)
    ensures |ProjectTimesOf(ss, ks, a, b)| == |ks|
    ensures forall i :: 0 <= i < |ks| ==>
      ProjectTimesOf(ss, ks, a, b)[i] == ProjectTime(ks[i], ClampedTotal(SessionsOf(ss, ks[i]), a, b))
  {
    if ks != [] {
      ProjectTimesOfMembers(ss, ks[1..], a, b);
    }
  }

  lemma {:induction false} ToSegmentsMembers(ps: seq<Project>, pts: seq<ProjectTime>)
    ensures |ToSegments(ps, pts)| == |pts|
    ensures forall i :: 0 <= i < |pts| ==> ToSegments(ps, pts)[i] == Segment(ColorOf(ps, pts[i].id), pts[i].time)
    ensures SumKeys(ToSegments(ps, pts), SegmentKey) == SumKeys(pts, ProjectTimeKey)
  {
    if pts != [] {
      ToSegmentsMembers(ps, pts[1..]);
    }
  }

  lemma {:induction false} ProjectTimesSnoc(ss: seq<Session>, ks: seq<string>, k: string, a: int, b: int)
    ensures SumKeys(ProjectTimesOf(ss, ks + [k], a, b), ProjectTimeKey)
      == SumKeys(ProjectTimesOf(ss, ks, a, b), ProjectTimeKey) + ClampedTotal(SessionsOf(ss, k), a, b)
    decreases |ks|
  {
    if ks == [] {
      assert ks + [k] == [k];
    } else {
      assert (ks + [k])[1..] == ks[1..] + [k];
      ProjectTimesSnoc(ss, ks[1..], k, a, b);
    }
  }

  /** One more session adds its clamped duration to its project's total and
      leaves the other totals alone. */
  lemma {:induction false} ProjectTimesStep(ss: seq<Session>, x: Session, ks: seq<string>, a: int, b: int)
    requires forall i, j :: 0 <= i < j < |ks| ==> ks[i] != ks[j]
    ensures SumKeys(ProjectTimesOf(ss + [x], ks, a, b), ProjectTimeKey)
      == SumKeys(ProjectTimesOf(ss, ks, a, b), ProjectTimeKey) + (if x.project in ks then ClampedDuration(x, a, b) else 0)
    decreases |ks|
  {
    if ks != [] {
      var k := ks[0];
      GroupTotalSnoc(ss, x, k, a, b);
      ProjectTimesStep(ss, x, ks[1..], a, b);
      assert ks == [k] + ks[1..];
    }
  }

  /** One more session adds its clamped duration to its own project's
      total only. */
  lemma {:induction false} GroupTotalSnoc(ss: seq<Session>, x: Session, k: string, a: int, b: int)
    ensures ClampedTotal(SessionsOf(ss + [x], k), a, b)
      == ClampedTotal(SessionsOf(ss, k), a, b) + (if x.project == k then ClampedDuration(x, a, b) else 0)
  {
    SessionsOfSnoc(ss, x, k);
    ClampedTotalAppend(SessionsOf(ss, k), if x.project == k then [x] else [], a, b);
    assert ClampedTotal([x], a, b) == ClampedDuration(x, a, b) by {
      assert [x][1..] == [];
    }
  }

  /** The per-project totals add up to the clamped total of all the
      sessions: every session is counted once, under its own project. */
  lemma {:induction false} ProjectTimesCoverInput(ss: seq<Session>, a: int, b: int)
    ensures SumKeys(ProjectTimes(ss, a, b), ProjectTimeKey) == ClampedTotal(ss, a, b)
    decreases |ss|
  {
    if ss != [] {
      var init, x := ss[..|ss| - 1], ss[|ss| - 1];
      var ks := ProjectOrder(init);
      assert ss == init + [x];
      assert ClampedTotal(ss, a, b) == ClampedTotal(init, a, b) + ClampedDuration(x, a, b) by {
        ClampedTotalAppend(init, [x], a, b);
        assert [x][1..] == [];
      }
      ProjectOrderKeys(init);
      ProjectTimesCoverInput(init, a, b);
      ProjectTimesStep(init, x, ks, a, b);
      if x.project !in ks {
        assert SessionsOf(ss, x.project) == [x] by {
          SessionsOfSnoc(init, x, x.project);
          SessionsOfMembers(init, x.project);
        }
        ProjectTimesSnoc(ss, ks, x.project, a, b);
      }
    } else {
      assert ProjectOrder(ss) == [];
    }
  }

  /** `g` is the segment of some project among the sessions. */
  predicate IsProjectSegment(ps: seq<Project>, ss: seq<Session>, a: int, b: int, g: Segment) {
    exists k :: k in ProjectOrder(ss) && g == Segment(ColorOf(ps, k), ClampedTotal(SessionsOf(ss, k), a, b))
  }

  /** Before sorting, segment i is that of the i-th project in first-seen
      order; so there is one segment per distinct project. */
  lemma {:induction false} SegmentsOfProjects(ps: seq<Project>, ss: seq<Session>, a: int, b: int)
    ensures |ToSegments(ps, ProjectTimes(ss, a, b))| == |ProjectOrder(ss)|
    ensures forall i :: 0 <= i < |ProjectOrder(ss)| ==>
      ToSegments(ps, ProjectTimes(ss, a, b))[i] ==
      Segment(ColorOf(ps, ProjectOrder(ss)[i]), ClampedTotal(SessionsOf(ss, ProjectOrder(ss)[i]), a, b))
    ensures forall g :: g in ToSegments(ps, ProjectTimes(ss, a, b)) <==> IsProjectSegment(ps, ss, a, b, g)
  {
    var ks := ProjectOrder(ss);
    var pts := ProjectTimes(ss, a, b);
    var segs := ToSegments(ps, pts);
    ProjectTimesOfMembers(ss, ks, a, b);
    ToSegmentsMembers(ps, pts);
    forall g
      ensures g in segs <==> IsProjectSegment(ps, ss, a, b, g)
    {
      if g in segs {
        var i :| 0 <= i < |segs| && segs[i] == g;
        assert ks[i] in ks;
      }
      if IsProjectSegment(ps, ss, a, b, g) {
        var k :| k in ks && g == Segment(ColorOf(ps, k), ClampedTotal(SessionsOf(ss, k), a, b));
        var i :| 0 <= i < |ks| && ks[i] == k;
        assert segs[i] == g;
      }
    }
  }

  /** getProjectBreakdown: one segment per distinct project among the
      sessions, carrying that project's colour ('#888' when unknown) and
      clamped total; sorted by non-increasing time; the times add up to the
      column's total. */
  lemma {:induction false} BreakdownFacts(ps: seq<Project>, ss: seq<Session>, a: int, b: int)
    ensures |ProjectBreakdown(ps, ss, a, b)| == |ProjectOrder(ss)|
    ensures multiset(ProjectBreakdown(ps, ss, a, b)) == multiset(ToSegments(ps, ProjectTimes(ss, a, b)))
    ensures NonIncreasing(ProjectBreakdown(ps, ss, a, b), SegmentKey)
    ensures SumKeys(ProjectBreakdown(ps, ss, a, b), SegmentKey) == ClampedTotal(ss, a, b)
    ensures forall g :: g in ProjectBreakdown(ps, ss, a, b) <==> IsProjectSegment(ps, ss, a, b, g)
  {
    var pts := ProjectTimes(ss, a, b);
    var segs := ToSegments(ps, pts);
    ProjectTimesOfMembers(ss, ProjectOrder(ss), a, b);
    ToSegmentsMembers(ps, pts);
    SortByTimeFacts(segs, SegmentKey);
    ProjectTimesCoverInput(ss, a, b);
    SegmentsOfProjects(ps, ss, a, b);
    var r := ProjectBreakdown(ps, ss, a, b);
    forall g
      ensures g in r <==> g in segs
    {
      assert g in r <==> g in multiset(r);
    }
  }

  /** The summary says "No data" exactly when there are no sessions;
      otherwise it has one row per project, in descending total, and the
      totals add up to the period total the percentages divide by. */
  lemma {:induction false} SummaryFacts(ss: seq<Session>, a: int, b: int)
    ensures ProjectSummary(ss, a, b).None? <==> ss == []
    ensures ProjectSummary(ss, a, b).Some? ==>
      var rows := ProjectSummary(ss, a, b).value;
      |rows| == |ProjectOrder(ss)| && |rows| >= 1 &&
      NonIncreasing(rows, ProjectTimeKey) &&
      SumKeys(rows, ProjectTimeKey) == ClampedTotal(ss, a, b) &&
      (forall row :: row in rows <==> row.id in ProjectOrder(ss) && row.time == ClampedTotal(SessionsOf(ss, row.id), a, b))
  {
    if ss != [] {
      var ks := ProjectOrder(ss);
      var pts := ProjectTimes(ss, a, b);
      ProjectOrderKeys(ss);
      assert ss[0].project in ks;
      ProjectTimesOfMembers(ss, ks, a, b);
      SortByTimeFacts(pts, ProjectTimeKey);
      ProjectTimesCoverInput(ss, a, b);
      var rows := ProjectSummary(ss, a, b).value;
      forall row
        ensures row in rows <==> row.id in ks && row.time == ClampedTotal(SessionsOf(ss, row.id), a, b)
      {
        assert row in rows <==> row in pts by {
          assert row in rows <==> row in multiset(rows);
        }
        if row.id in ks && row.time == ClampedTotal(SessionsOf(ss, row.id), a, b) {
          var i :| 0 <= i < |ks| && ks[i] == row.id;
          assert pts[i] == row;
        }
      }
    }
  }

  // ------------------------------------------------------------ daily rows

  /** One chart column. */
  datatype DayData = DayData(dayLabel: string, total: int, isToday: bool, projects: seq<Segment>)

  const WEEK_LABELS: seq<string> := ["M", "T", "W", "T", "F", "S", "S"]

  /** The column of day number `day`: the sessions starting that day, their
      total clamped to the day, and their breakdown. */
  function DayRow(ps: seq<Project>, ss: seq<Session>, day: int, dayLabel: string, isToday: bool): DayData {
    var a, b := day * DAY_MS, (day + 1) * DAY_MS;
    var inDay := SessionsInRange(ss, a, b);
    DayData(dayLabel, ClampedTotal(inDay, a, b), isToday, ProjectBreakdown(ps, inDay, a, b))
  }

  /** A column's total is never negative, never more than a day per
      session, and equals the sum of its segments. */
  lemma {:induction false} DayRowFacts(ps: seq<Project>, ss: seq<Session>, day: int, dayLabel: string, isToday: bool)
    ensures var r := DayRow(ps, ss, day, dayLabel, isToday);
      0 <= r.total && SumKeys(r.projects, SegmentKey) == r.total &&
      r.total <= |SessionsInRange(ss, day * DAY_MS, (day + 1) * DAY_MS)| * DAY_MS
  {
    var a, b := day * DAY_MS, (day + 1) * DAY_MS;
    assert b - a == DAY_MS;
    BreakdownFacts(ps, SessionsInRange(ss, a, b), a, b);
    ClampedTotalDayBound(SessionsInRange(ss, a, b), day);
  }

  /** The first `n` columns of a chart whose first day is `first`, with
      the given labels and today's column at `todayIndex`. */
  function Columns(ps: seq<Project>, ss: seq<Session>, first: int, labels: seq<string>, todayIndex: int, n: nat): (r: seq<DayData>)
    requires n <= |labels|
    ensures |r| == n
  {
    seq(n, i requires 0 <= i < n => DayRow(ps, ss, first + i, labels[i], i == todayIndex))
  }

  /** Column `i` is the column of day `first + i`. */
  lemma {:induction false} ColumnsAt(ps: seq<Project>, ss: seq<Session>, first: int, labels: seq<string>, todayIndex: int, n: nat, i: nat)
    requires i < n <= |labels|
    ensures Columns(ps, ss, first, labels, todayIndex, n)[i] == DayRow(ps, ss, first + i, labels[i], i == todayIndex)
  {
  }

  /** Column `i` carries label `i` and is marked exactly when it is today's. */
  lemma {:induction false} ColumnFields(ps: seq<Project>, ss: seq<Session>, first: int, labels: seq<string>, todayIndex: int, n: nat, i: nat)
    requires i < n <= |labels|
    ensures var c := Columns(ps, ss, first, labels, todayIndex, n)[i];
      c.dayLabel == labels[i] && (c.isToday <==> i == todayIndex)
  {
    ColumnsAt(ps, ss, first, labels, todayIndex, n, i);
  }

  /** Column `d` of the month chart is the column of day `d + 1` of the
      month, marked when that is today's date. */
  lemma {:induction false} MonthColumnAt(ps: seq<Project>, ss: seq<Session>, t: Today, first: int, d: nat)
    requires d < t.monthLength
    ensures Columns(ps, ss, first, MonthLabels(t.monthLength), t.dayOfMonth - 1, t.monthLength)[d]
         == DayRow(ps, ss, first + d, NatToString(d + 1), d + 1 == t.dayOfMonth)
  {
    ColumnsAt(ps, ss, first, MonthLabels(t.monthLength), t.dayOfMonth - 1, t.monthLength, d);
    MonthLabelAt(t.monthLength, d);
  }

  /** "1" to "n". */
  function MonthLabels(n: nat): (r: seq<string>)
    ensures |r| == n
  {
    seq(n, i requires 0 <= i => NatToString(i + 1))
  }

  /** Label `i` names day `i + 1`. */
  lemma {:induction false} MonthLabelAt(n: nat, i: nat)
    requires i < n
    ensures MonthLabels(n)[i] == NatToString(i + 1)
  {
  }

  /** The week chart: seven columns from this week's Monday, labelled
      M T W T F S S, of which exactly one, today's, is marked. */
  lemma {:induction false} WeekColumnsFacts(ps: seq<Project>, ss: seq<Session>, t: Today)
    requires ValidToday(t)
    ensures var r := Columns(ps, ss, WeekStartDay(t), WEEK_LABELS, MondayIndex(t.weekday), 7);
      |r| == 7 &&
      (forall i :: 0 <= i < 7 ==> r[i].dayLabel == WEEK_LABELS[i]) &&
      (forall i :: 0 <= i < 7 ==> (r[i].isToday <==> WeekStartDay(t) + i == t.day)) &&
      r[MondayIndex(t.weekday)].isToday
  {
    MondayIndexMaps(t.weekday);
    var r := Columns(ps, ss, WeekStartDay(t), WEEK_LABELS, MondayIndex(t.weekday), 7);
    forall i | 0 <= i < 7
      ensures r[i].dayLabel == WEEK_LABELS[i] && (r[i].isToday <==> WeekStartDay(t) + i == t.day)
    {
      ColumnFields(ps, ss, WeekStartDay(t), WEEK_LABELS, MondayIndex(t.weekday), 7, i);
    }
  }

  /** The month chart: one column per day of the month from its first day,
      labelled with its day number, of which exactly one, today's, is marked. */
  lemma {:induction false} MonthColumnsFacts(ps: seq<Project>, ss: seq<Session>, t: Today)
    requires ValidToday(t)
    ensures var r := Columns(ps, ss, MonthStartDay(t), MonthLabels(t.monthLength), t.dayOfMonth - 1, t.monthLength);
      |r| == t.monthLength &&
      (forall i :: 0 <= i < t.monthLength ==> r[i].dayLabel == NatToString(i + 1)) &&
      (forall i :: 0 <= i < t.monthLength ==> (r[i].isToday <==> MonthStartDay(t) + i == t.day)) &&
      r[t.dayOfMonth - 1].isToday
  {
    var labels := MonthLabels(t.monthLength);
    var r := Columns(ps, ss, MonthStartDay(t), labels, t.dayOfMonth - 1, t.monthLength);
    forall i | 0 <= i < t.monthLength
      ensures r[i].dayLabel == NatToString(i + 1) && (r[i].isToday <==> MonthStartDay(t) + i == t.day)
    {
      ColumnFields(ps, ss, MonthStartDay(t), labels, t.dayOfMonth - 1, t.monthLength, i);
      MonthLabelAt(t.monthLength, i);
    }
  }

  /** `Math.max(...totals, 1)`. */
  function MaxTotal(rows: seq<DayData>): (r: int)
    ensures r >= 1
    ensures forall i :: 0 <= i < |rows| ==> rows[i].total <= r
    ensures r == 1 || exists i :: 0 <= i < |rows| && rows[i].total == r
  {
    if rows == [] then 1
    else
      var rest := MaxTotal(rows[1..]);
      if rows[0].total > rest then rows[0].total else rest
  }

  // ------------------------------------------------------------ the totals

  /** getSessions as written: the store's Sunday-anchored week, or the
      sessions starting in the month. */
  function SessionsAsWritten(ss: seq<Session>, mode: Mode, t: Today): seq<Session> {
    match mode
    case Week => WeekSessions(ss, t.day, t.weekday)
    case Month => SessionsInRange(ss, PeriodRange(Month, t).0, PeriodRange(Month, t).1)
  }

  function PeriodTotalAsWritten(ss: seq<Session>, mode: Mode, t: Today): int {
    ClampedTotal(SessionsAsWritten(ss, mode, t), PeriodRange(mode, t).0, PeriodRange(mode, t).1)
  }

  /** The sessions starting in the period the section displays. */
  function PeriodSessions(ss: seq<Session>, mode: Mode, t: Today): seq<Session> {
    SessionsInRange(ss, PeriodRange(mode, t).0, PeriodRange(mode, t).1)
  }

  function PeriodTotal(ss: seq<Session>, mode: Mode, t: Today): int {
    ClampedTotal(PeriodSessions(ss, mode, t), PeriodRange(mode, t).0, PeriodRange(mode, t).1)
  }

  /** As written, on a Sunday the week's Monday-to-Saturday sessions are not
      among the sessions the total and summary use, although they lie in the
      displayed week. */
  lemma {:induction false} SundayDropsWeek(ss: seq<Session>, t: Today, s: Session)
    requires ValidToday(t) && t.weekday == 0
    requires s in ss && WeekStartDay(t) * DAY_MS <= s.start < t.day * DAY_MS
    ensures s !in SessionsAsWritten(ss, Week, t)
    ensures s in PeriodSessions(ss, Week, t)
  {
    PeriodRangeFacts(t);
    var a, b := PeriodRange(Week, t).0, PeriodRange(Week, t).1;
    assert t.day * DAY_MS <= b;
    SessionsInRangeMembers(ss, t.day * DAY_MS, (t.day + 7) * DAY_MS);
    SessionsInRangeMembers(ss, a, b);
  }

  /** On Sunday 4 January 1970 (day 3), a one-hour session from midnight
      on Monday 29 December 1969 (day -3) counts 0 as written and one hour
      once the week's sessions are taken from the displayed period. */
  lemma {:induction false} SundayWeekTotalCounterexample()
    ensures ValidToday(Today(3, 0, 4, 31))
    ensures var t := Today(3, 0, 4, 31);
      var ss := [Session("work", -3 * DAY_MS, -3 * DAY_MS + HOUR_MS)];
      PeriodTotalAsWritten(ss, Week, t) == 0 && PeriodTotal(ss, Week, t) == HOUR_MS
  {
    var t := Today(3, 0, 4, 31);
    var ss := [Session("work", -3 * DAY_MS, -3 * DAY_MS + HOUR_MS)];
    assert WeekStartDay(t) == -3;
    assert SessionsAsWritten(ss, Week, t) == [] by {
      assert SessionsInRange(ss[1..], 3 * DAY_MS, 10 * DAY_MS) == [];
    }
    assert PeriodSessions(ss, Week, t) == ss by {
      assert SessionsInRange(ss[1..], -3 * DAY_MS, 4 * DAY_MS) == [];
    }
    assert ClampedTotal(ss[1..], -3 * DAY_MS, 4 * DAY_MS) == 0;
  }

  /** The period total is never negative, and every session lying inside the
      period, started on any of its days, counts in full. */
  lemma {:induction false} PeriodTotalCountsContained(ss: seq<Session>, mode: Mode, t: Today, s: Session)
    requires s in ss
    requires PeriodRange(mode, t).0 <= s.start <= s.end <= PeriodRange(mode, t).1
    ensures PeriodTotal(ss, mode, t) >= s.end - s.start >= 0
  {
    var a, b := PeriodRange(mode, t).0, PeriodRange(mode, t).1;
    if s.start < b {
      SessionsInRangeMembers(ss, a, b);
      ClampedTotalCountsMember(PeriodSessions(ss, mode, t), s, a, b);
    }
  }

  // ---------------------------------------------------------------- class

  class AnalyticsSection {
    const store: Store

    constructor (store: Store)
      ensures this.store == store
    {
      this.store := store;
    }

    /** getSessions as written: the store's Sunday-anchored week, or the
        sessions starting in the month. */
    function Sessions(mode: Mode, t: Today): seq<Session>
      reads store
    {
      SessionsAsWritten(store.sessions, mode, t)
    }

    /** getWeekDailyData: the seven columns of the week from its Monday. */
    method WeekDailyData(t: Today) returns (result: seq<DayData>)
      requires ValidToday(t)
      ensures result == Columns(store.projects, store.sessions, WeekStartDay(t), WEEK_LABELS, MondayIndex(t.weekday), 7)
    {
      var dayOfWeek := MondayIndex(t.weekday);
      var first := t.day - dayOfWeek;
      ghost var columns := Columns(store.projects, store.sessions, first, WEEK_LABELS, dayOfWeek, 7);
      result := [];
      for i := 0 to 7
        invariant |result| == i
        invariant forall j :: 0 <= j < i ==> result[j] == columns[j]
      {
        var row := DayRow(store.projects, store.sessions, first + i, WEEK_LABELS[i], i == dayOfWeek);
        ColumnsAt(store.projects, store.sessions, first, WEEK_LABELS, dayOfWeek, 7, i);
        result := result + [row];
      }
    }

    /** getMonthDailyData: one column per day of the month, from its first. */
    method MonthDailyData(t: Today) returns (result: seq<DayData>)
      requires ValidToday(t)
      ensures result == Columns(store.projects, store.sessions, MonthStartDay(t), MonthLabels(t.monthLength), t.dayOfMonth - 1, t.monthLength)
    {
      var first := t.day - (t.dayOfMonth - 1);
      ghost var columns := Columns(store.projects, store.sessions, first, MonthLabels(t.monthLength), t.dayOfMonth - 1, t.monthLength);
      result := [];
      for d := 0 to t.monthLength
        invariant |result| == d
        invariant forall j :: 0 <= j < d ==> result[j] == columns[j]
      {
        // day `d + 1` of the month, labelled and compared to today by its number
        var row := DayRow(store.projects, store.sessions, first + d, NatToString(d + 1), d + 1 == t.dayOfMonth);
        MonthColumnAt(store.projects, store.sessions, t, first, d);
        result := result + [row];
      }
    }
  }

  /** Month columns are labelled with distinct day numbers that read back as
      1, 2, ... in order. */
  lemma {:induction false} MonthLabelsReadBack(i: nat)
    ensures AllDigits(NatToString(i + 1)) && ParseNat(NatToString(i + 1)) == i + 1
  {
    ParseNatToString(i + 1);
  }
}

/**
 * The session store: the in-memory projects and sessions, the mutations that
 * rewrite them (each followed by a save of the whole document) and the
 * queries over them. The save is an effect counted in the ghost field
 * `saves`; the file it writes is not modelled.
 */
module SessionStore {
  import opened TimeTypes
  import opened Utils

  // ------------------------------------------------------------------ queries

  /** The position of the first project with id `id`, the one `find` picks. */
  function FirstProjectIndex(ps: seq<Project>, id: string): (r: Option<nat>)
    ensures r.Some? ==> r.value < |ps| && ps[r.value].id == id
  {
    if ps == [] then None
    else if ps[0].id == id then Some(0)
    else match FirstProjectIndex(ps[1..], id)
      case None => None
      case Some(k) => Some(k + 1)
  }

  /** The index found is the first with that id, and none is found only
      when no project has it. */
  lemma {:induction false} FirstProjectIndexFirst(ps: seq<Project>, id: string)
    ensures var r := FirstProjectIndex(ps, id);
      (r.Some? ==> forall j :: 0 <= j < r.value ==> ps[j].id != id) &&
      (r.None? ==> forall j :: 0 <= j < |ps| ==> ps[j].id != id)
  {
    if ps != [] && ps[0].id != id {
      FirstProjectIndexFirst(ps[1..], id);
    }
  }

  /** getProject: the first project with that id, or none. */
  function FindProject(ps: seq<Project>, id: string): (r: Option<Project>)
    ensures r.Some? ==> r.value.id == id
  {
    match FirstProjectIndex(ps, id)
    case None => None
    case Some(i) => Some(ps[i])
  }

  /** Nothing is found exactly when no project has the id; otherwise the
      first project that has it is. */
  lemma {:induction false} FindProjectFacts(ps: seq<Project>, id: string)
    ensures var r := FindProject(ps, id);
      (r.None? <==> forall p :: p in ps ==> p.id != id) &&
      (r.Some? ==> exists i :: 0 <= i < |ps| && ps[i] == r.value && (forall j :: 0 <= j < i ==> ps[j].id != id))
  {
    FirstProjectIndexFirst(ps, id);
  }

  /** The sessions whose start lies in [rangeStart, rangeEnd), in stored
      order; how far a session runs past the range plays no part. */
  function SessionsInRange(ss: seq<Session>, rangeStart: int, rangeEnd: int): (r: seq<Session>)
    ensures rangeEnd <= rangeStart ==> r == []
    ensures |r| <= |ss|
  {
    if ss == [] then []
    else
      var rest := SessionsInRange(ss[1..], rangeStart, rangeEnd);
      if rangeStart <= ss[0].start < rangeEnd then [ss[0]] + rest else rest
  }

  /** The filter keeps exactly the sessions starting in the range. */
  lemma {:induction false} SessionsInRangeMembers(ss: seq<Session>, rangeStart: int, rangeEnd: int)
    ensures forall x :: x in SessionsInRange(ss, rangeStart, rangeEnd) <==> x in ss && rangeStart <= x.start < rangeEnd
  {
    if ss != [] {
      SessionsInRangeMembers(ss[1..], rangeStart, rangeEnd);
      assert forall x :: x in ss <==> x == ss[0] || x in ss[1..];
    }
  }

  /** The range filter keeps stored order: filtering a concatenation
      concatenates the filtered parts. */
  lemma {:induction false} SessionsInRangeAppend(x: seq<Session>, y: seq<Session>, a: int, b: int)
    ensures SessionsInRange(x + y, a, b) == SessionsInRange(x, a, b) + SessionsInRange(y, a, b)
  {
    if x == [] {
      assert x + y == y;
    } else {
      assert (x + y)[1..] == x[1..] + y;
      SessionsInRangeAppend(x[1..], y, a, b);
    }
  }

  /** getTotalTime: the unclamped sum of end - start. */
  function TotalTime(ss: seq<Session>): (r: int)
    ensures ss == [] ==> r == 0
  {
    if ss == [] then 0 else (ss[0].end - ss[0].start) + TotalTime(ss[1..])
  }

  lemma {:induction false} TotalTimeAppend(x: seq<Session>, y: seq<Session>)
    ensures TotalTime(x + y) == TotalTime(x) + TotalTime(y)
  {
    if x == [] {
      assert x + y == y;
    } else {
      assert (x + y)[1..] == x[1..] + y;
      TotalTimeAppend(x[1..], y);
    }
  }

  /** For sessions that do not run backwards, clamping to a range never adds
      time, and sessions lying inside the range are counted in full. */
  lemma {:induction false} ClampedTotalAtMostTotal(ss: seq<Session>, a: int, b: int)
    requires forall s :: s in ss ==> s.start <= s.end
    ensures ClampedTotal(ss, a, b) <= TotalTime(ss)
    ensures (forall s :: s in ss ==> a <= s.start && s.end <= b) ==> ClampedTotal(ss, a, b) == TotalTime(ss)
  {
    if ss != [] {
      assert forall s :: s in ss[1..] ==> s in ss;
      ClampedTotalAtMostTotal(ss[1..], a, b);
    }
  }

  /** The projects left by deleteProject. */
  function ProjectsWithout(ps: seq<Project>, id: string): (r: seq<Project>)
    ensures |r| <= |ps|
  {
    if ps == [] then []
    else
      var rest := ProjectsWithout(ps[1..], id);
      if ps[0].id != id then [ps[0]] + rest else rest
  }

  /** Exactly the projects with another id are kept. */
  lemma {:induction false} ProjectsWithoutMembers(ps: seq<Project>, id: string)
    ensures forall p :: p in ProjectsWithout(ps, id) <==> p in ps && p.id != id
  {
    if ps != [] {
      ProjectsWithoutMembers(ps[1..], id);
      assert forall p :: p in ps <==> p == ps[0] || p in ps[1..];
    }
  }

  /** The sessions left by deleteProject's cascade. */
  function SessionsWithout(ss: seq<Session>, id: string): (r: seq<Session>)
    ensures |r| <= |ss|
  {
    if ss == [] then []
    else
      var rest := SessionsWithout(ss[1..], id);
      if ss[0].project != id then [ss[0]] + rest else rest
  }

  /** Exactly the sessions of other projects are kept. */
  lemma {:induction false} SessionsWithoutMembers(ss: seq<Session>, id: string)
    ensures forall s :: s in SessionsWithout(ss, id) <==> s in ss && s.project != id
  {
    if ss != [] {
      SessionsWithoutMembers(ss[1..], id);
      assert forall s :: s in ss <==> s == ss[0] || s in ss[1..];
    }
  }

  /** The project filter keeps the relative order of what it keeps. */
  lemma {:induction false} ProjectsWithoutAppend(p: seq<Project>, q: seq<Project>, id: string)
    ensures ProjectsWithout(p + q, id) == ProjectsWithout(p, id) + ProjectsWithout(q, id)
  {
    if p == [] {
      assert p + q == q;
    } else {
      assert (p + q)[1..] == p[1..] + q;
      ProjectsWithoutAppend(p[1..], q, id);
    }
  }

  /** The session cascade keeps the relative order of what it keeps. */
  lemma {:induction false} SessionsWithoutAppend(x: seq<Session>, y: seq<Session>, id: string)
    ensures SessionsWithout(x + y, id) == SessionsWithout(x, id) + SessionsWithout(y, id)
  {
    if x == [] {
      assert x + y == y;
    } else {
      assert (x + y)[1..] == x[1..] + y;
      SessionsWithoutAppend(x[1..], y, id);
    }
  }

  /** The first day of the week getWeekSessions uses: `getDate() - getDay()`,
      so the week starts on Sunday (`weekday` is getDay(), Sunday = 0). */
  function StoreWeekStartDay(today: int, weekday: int): int {
    today - weekday
  }

  /** getWeekSessions, given today's day number and weekday. */
  function WeekSessions(ss: seq<Session>, today: int, weekday: int): seq<Session> {
    var first := StoreWeekStartDay(today, weekday);
    SessionsInRange(ss, first * DAY_MS, (first + 7) * DAY_MS)
  }

  /** getTodaySessions, given today's day number. */
  function TodaySessions(ss: seq<Session>, today: int): seq<Session> {
    SessionsInRange(ss, today * DAY_MS, (today + 1) * DAY_MS)
  }

  /** getTodaySessions keeps exactly the sessions starting on day `today`;
      getWeekSessions exactly those starting in the seven days from the
      Sunday `weekday` days back. */
  lemma {:induction false} StoreQueriesSelect(ss: seq<Session>, today: int, weekday: int)
    ensures forall x :: x in TodaySessions(ss, today) <==>
      x in ss && today * DAY_MS <= x.start < (today + 1) * DAY_MS
    ensures forall x :: x in WeekSessions(ss, today, weekday) <==>
      x in ss && (today - weekday) * DAY_MS <= x.start < (today - weekday + 7) * DAY_MS
  {
    SessionsInRangeMembers(ss, today * DAY_MS, (today + 1) * DAY_MS);
    SessionsInRangeMembers(ss, (today - weekday) * DAY_MS, (today - weekday + 7) * DAY_MS);
  }

  // --------------------------------------------------------------- mutations

  /** A partial project update: `None` fields are left as they are. */
  datatype ProjectPatch = ProjectPatch(
    id: Option<string>, name: Option<string>, color: Option<string>, icon: Option<string>)

  /** `Object.assign(project, updates)` on the fields the patch names. */
  function ApplyPatch(p: Project, u: ProjectPatch): Project {
    Project(u.id.GetOr(p.id), u.name.GetOr(p.name), u.color.GetOr(p.color), u.icon.GetOr(p.icon))
  }

  class Store {
    var projects: seq<Project>
    var sessions: seq<Session>
    ghost var saves: nat

    constructor ()
      ensures projects == [] && sessions == [] && saves == 0
    {
      projects, sessions := [], [];
      saves := 0;
    }

    /** Load: a stored document replaces the data as it is; with none, the
        default projects are seeded and saved. */
    method Load(stored: Option<TimeData>)
      modifies this
      ensures stored.Some? ==> projects == stored.value.projects && sessions == stored.value.sessions && saves == old(saves)
      ensures stored.None? ==> projects == DEFAULT_PROJECTS && sessions == [] && saves == old(saves) + 1
    {
      match stored
      case Some(d) =>
        projects, sessions := d.projects, d.sessions;
      case None =>
        projects, sessions := DEFAULT_PROJECTS, [];
        saves := saves + 1;
    }

    function GetProject(id: string): Option<Project>
      reads this
    {
      FindProject(projects, id)
    }

    method AddProject(p: Project)
      modifies this
      ensures projects == old(projects) + [p]
      ensures sessions == old(sessions) && saves == old(saves) + 1
    {
      projects := projects + [p];
      saves := saves + 1;
    }

    /** Patches the first project with that id; with none, nothing changes
        and nothing is saved. */
    method UpdateProject(id: string, u: ProjectPatch)
      modifies this
      ensures sessions == old(sessions)
      ensures match FirstProjectIndex(old(projects), id)
        case None => projects == old(projects) && saves == old(saves)
        case Some(i) => projects == old(projects)[i := ApplyPatch(old(projects)[i], u)] && saves == old(saves) + 1
    {
      match FirstProjectIndex(projects, id)
      case None =>
      case Some(i) =>
        projects := projects[i := ApplyPatch(projects[i], u)];
        saves := saves + 1;
    }

    /** Removes every project with that id and, in cascade, every session
        of that project; saves even when nothing matched. */
    method DeleteProject(id: string)
      modifies this
      ensures projects == ProjectsWithout(old(projects), id)
      ensures sessions == SessionsWithout(old(sessions), id)
      ensures forall s :: s in sessions ==> s.project != id
      ensures saves == old(saves) + 1
    {
      SessionsWithoutMembers(sessions, id);
      projects := ProjectsWithout(projects, id);
      sessions := SessionsWithout(sessions, id);
      saves := saves + 1;
    }

    method AddSession(s: Session)
      modifies this
      ensures sessions == old(sessions) + [s]
      ensures projects == old(projects) && saves == old(saves) + 1
    {
      sessions := sessions + [s];
      saves := saves + 1;
    }

    /** Replaces the session at `index`; an index out of range changes
        nothing and does not save. */
    method UpdateSession(index: int, s: Session)
      modifies this
      ensures projects == old(projects)
      ensures 0 <= index < |old(sessions)| ==> sessions == old(sessions)[index := s] && saves == old(saves) + 1
      ensures !(0 <= index < |old(sessions)|) ==> sessions == old(sessions) && saves == old(saves)
    {
      if 0 <= index < |sessions| {
        sessions := sessions[index := s];
        saves := saves + 1;
      }
    }

    /** Removes the session at `index` (a one-element splice); an index out
        of range changes nothing and does not save. */
    method DeleteSession(index: int)
      modifies this
      ensures projects == old(projects)
      ensures 0 <= index < |old(sessions)| ==>
        sessions == old(sessions)[..index] + old(sessions)[index + 1..] && saves == old(saves) + 1
      ensures !(0 <= index < |old(sessions)|) ==> sessions == old(sessions) && saves == old(saves)
    {
      if 0 <= index < |sessions| {
        sessions := sessions[..index] + sessions[index + 1..];
        saves := saves + 1;
      }
    }

    function GetSessionsInRange(rangeStart: int, rangeEnd: int): seq<Session>
      reads this
    {
      SessionsInRange(sessions, rangeStart, rangeEnd)
    }

    function GetTodaySessions(today: int): seq<Session>
      reads this
    {
      TodaySessions(sessions, today)
    }

    function GetWeekSessions(today: int, weekday: int): seq<Session>
      reads this
    {
      WeekSessions(sessions, today, weekday)
    }
  }

  /** Deleting the session at an index keeps every other session, in order:
      those before it stay put and those after it move down by one. */
  lemma {:induction false} DeleteSessionShifts(ss: seq<Session>, index: int)
    requires 0 <= index < |ss|
    ensures var r := ss[..index] + ss[index + 1..];
      |r| == |ss| - 1 &&
      (forall j :: 0 <= j < index ==> r[j] == ss[j]) &&
      (forall j :: index <= j < |r| ==> r[j] == ss[j + 1])
  {
  }
}

/**
 * The records of the time tracker: projects, sessions, the persisted
 * time-data document and the live timer state, with the built-in defaults.
 * Timestamps are integer milliseconds since the epoch.
 */
module TimeTypes {

  datatype Option<+T> = None | Some(value: T) {
    function GetOr(default: T): T {
      match this
      case Some(v) => v
      case None => default
    }
  }

  const SECOND_MS: int := 1000
  const MINUTE_MS: int := 60000
  const HOUR_MS: int := 3600000
  const DAY_MS: int := 86400000

  /** A named bucket that sessions are tracked against. */
  datatype Project = Project(id: string, name: string, color: string, icon: string)

  /** One finished interval of tracked time, attributed to a project id. */
  datatype Session = Session(project: string, start: int, end: int)

  /** The persisted document: projects in order, sessions in stored order. */
  datatype TimeData = TimeData(projects: seq<Project>, sessions: seq<Session>)

  datatype Status = Idle | Running

  /** The live timer pointer; `None` stands for the source's `null`. */
  datatype TimerState = TimerState(status: Status, projectId: Option<string>, startTime: Option<int>)

  datatype Settings = Settings(timerState: TimerState)

  const IDLE_STATE: TimerState := TimerState(Idle, None, None)

  const DEFAULT_SETTINGS: Settings := Settings(IDLE_STATE)

  const DEFAULT_PROJECTS: seq<Project> := [
    Project("work", "Work", "#5f8eed", "briefcase"),
    Project("personal", "Personal", "#50c878", "home")
  ]

  const AVAILABLE_ICONS: seq<string> := [
    "briefcase", "home", "book", "code", "coffee", "heart", "star", "folder",
    "file-text", "music", "camera", "globe", "zap", "sun", "moon", "cloud",
    "pen-tool", "cpu", "database", "terminal", "graduation-cap", "dumbbell",
    "bike", "car", "plane", "shopping-cart", "dollar-sign", "clock", "calendar",
    "mail", "phone", "map-pin", "users", "user", "settings", "wrench"
  ]

  /** A timer state is consistent when it is running exactly when both its
      project and its start time are present. */
  predicate Consistent(s: TimerState) {
    s.status == Running <==> (s.projectId.Some? && s.startTime.Some?)
  }

  lemma {:induction false} DefaultSettingsIdle()
    ensures DEFAULT_SETTINGS.timerState.status == Idle
    ensures DEFAULT_SETTINGS.timerState.projectId == None
    ensures DEFAULT_SETTINGS.timerState.startTime == None
    ensures Consistent(DEFAULT_SETTINGS.timerState)
  {
  }

  lemma {:induction false} DefaultProjectsDistinct()
    ensures |DEFAULT_PROJECTS| == 2
    ensures DEFAULT_PROJECTS[0].id == "work" && DEFAULT_PROJECTS[1].id == "personal"
    ensures forall i, j :: 0 <= i < j < |DEFAULT_PROJECTS| ==> DEFAULT_PROJECTS[i].id != DEFAULT_PROJECTS[j].id
  {
  }

  lemma {:induction false} DefaultIconsAvailable()
    ensures forall p :: p in DEFAULT_PROJECTS ==> p.icon in AVAILABLE_ICONS
  {
    assert AVAILABLE_ICONS[0] == "briefcase";
    assert AVAILABLE_ICONS[1] == "home";
  }

  lemma {:induction false} StatusIsIdleOrRunning(s: Status)
    ensures s == Idle || s == Running
    ensures !(s == Idle && s == Running)
  {
  }
}

/**
 * The timer: a two-state machine (idle, running) over a persisted timer
 * state. Each operation is specified by a pure step function giving the new
 * state, the sessions it hands to the store and the effects it fires, in
 * order: `Persist(s)` for the injected persistState callback and `Change`
 * for the 'change' event. The clock is the parameter `now`.
 */
module TimerMachine {
  import opened TimeTypes
  import opened SessionStore

  datatype Effect = Persist(state: TimerState) | Change

  /** What one operation does: the new state, the sessions appended to the
      store, and the effects fired, in order. */
  datatype Step = Step(state: TimerState, appended: seq<Session>, effects: seq<Effect>)

  /** One step followed by another. */
  function Then(a: Step, b: Step): Step {
    Step(b.state, a.appended + b.appended, a.effects + b.effects)
  }

  /** JavaScript truthiness of the project id: both null and "" are falsy. */
  predicate HasProject(id: Option<string>) {
    id.Some? && id.value != ""
  }

  /** stop() finalises a session only from this kind of state. */
  predicate CanFinalize(s: TimerState) {
    s.status == Running && HasProject(s.projectId) && s.startTime.Some?
  }

  function RunningState(projectId: string, now: int): TimerState {
    TimerState(Running, Some(projectId), Some(now))
  }

  /** stop(): a no-op unless running with a project and a start time;
      otherwise one session up to `now` is appended, then the idle state is
      persisted and 'change' fires. */
  function StopStep(s: TimerState, now: int): Step {
    if s.status == Idle || !HasProject(s.projectId) || s.startTime.None? then Step(s, [], [])
    else Step(IDLE_STATE, [Session(s.projectId.value, s.startTime.value, now)], [Persist(IDLE_STATE), Change])
  }

  /** start(projectId): a running timer is stopped first; then the timer
      runs for `projectId` from `now`, persists and fires 'change'. */
  function StartStep(s: TimerState, projectId: string, now: int): Step {
    var running := RunningState(projectId, now);
    var begin := Step(running, [], [Persist(running), Change]);
    if s.status == Running then Then(StopStep(s, now), begin) else begin
  }

  /** discard(): idle, with no session, whatever the state was. */
  function DiscardStep(s: TimerState): Step {
    Step(IDLE_STATE, [], [Persist(IDLE_STATE), Change])
  }

  /** The elapsed getter: recomputed from the state and the clock. */
  function ElapsedAt(s: TimerState, now: int): int {
    if s.status == Idle || s.startTime.None? then 0 else now - s.startTime.value
  }

  datatype Op = Start(projectId: string, now: int) | Stop(now: int) | Discard

  function Apply(s: TimerState, op: Op): Step {
    match op
    case Start(p, now) => StartStep(s, p, now)
    case Stop(now) => StopStep(s, now)
    case Discard => DiscardStep(s)
  }

  /** A sequence of operations, one after the other. */
  function Run(s: TimerState, ops: seq<Op>): Step
    decreases |ops|
  {
    if ops == [] then Step(s, [], [])
    else
      var first := Apply(s, ops[0]);
      Then(first, Run(first.state, ops[1..]))
  }

  // ----------------------------------------------------------------- lemmas

  /** start and discard always leave a consistent state; stop keeps one. */
  lemma {:induction false} StepKeepsConsistent(s: TimerState, op: Op)
    ensures op.Start? || op.Discard? ==> Consistent(Apply(s, op).state)
    ensures Consistent(s) ==> Consistent(Apply(s, op).state)
  {
  }

  /** Over any sequence of start/stop/discard calls from a consistent state,
      the timer runs exactly when it has a project and a start time. */
  lemma {:induction false} RunKeepsConsistent(s: TimerState, ops: seq<Op>)
    requires Consistent(s)
    ensures Consistent(Run(s, ops).state)
    decreases |ops|
  {
    if ops != [] {
      StepKeepsConsistent(s, ops[0]);
      RunKeepsConsistent(Apply(s, ops[0]).state, ops[1..]);
    }
  }

  /** start(p) at t1 then stop() at t2 appends exactly the session
      {p, t1, t2} and leaves the timer idle. */
  lemma {:induction false} StartThenStop(s: TimerState, p: string, t1: int, t2: int)
    requires p != ""
    ensures var r := Run(s, [Start(p, t1), Stop(t2)]);
      r.state == IDLE_STATE &&
      r.appended == StopStep(s, t1).appended + [Session(p, t1, t2)]
  {
    var ops := [Start(p, t1), Stop(t2)];
    var first := StartStep(s, p, t1);
    assert ops[1..] == [Stop(t2)] && [Stop(t2)][1..] == [];
    var second := StopStep(first.state, t2);
    assert Run(first.state, [Stop(t2)]) == Then(second, Run(second.state, []));
    assert Run(s, ops) == Then(first, Run(first.state, [Stop(t2)]));
  }

  /** With the empty project id, which is falsy, stop() does nothing and
      the timer keeps running. */
  lemma {:induction false} StopWithEmptyProjectIsNoOp(t1: int, t2: int)
    ensures StopStep(RunningState("", t1), t2) == Step(RunningState("", t1), [], [])
  {
  }

  /** stop() when idle appends nothing, persists nothing, fires nothing. */
  lemma {:induction false} StopWhenIdleIsNoOp(s: TimerState, now: int)
    requires s.status == Idle
    ensures StopStep(s, now) == Step(s, [], [])
  {
  }

  /** start while running (even for the same project) finalises exactly one
      session for the old project, then runs for the new one from now. */
  lemma {:induction false} StartWhileRunningSwitches(s: TimerState, p: string, now: int)
    requires CanFinalize(s)
    ensures var r := StartStep(s, p, now);
      r.appended == [Session(s.projectId.value, s.startTime.value, now)] &&
      r.state == RunningState(p, now) &&
      r.effects == [Persist(IDLE_STATE), Change, Persist(RunningState(p, now)), Change]
  {
  }

  /** start from idle appends nothing. */
  lemma {:induction false} StartWhenIdle(s: TimerState, p: string, now: int)
    requires s.status == Idle
    ensures StartStep(s, p, now) == Step(RunningState(p, now), [], [Persist(RunningState(p, now)), Change])
  {
  }

  /** discard never appends a session and always persists and fires. */
  lemma {:induction false} DiscardAppendsNothing(s: TimerState)
    ensures DiscardStep(s).appended == [] && DiscardStep(s).state == IDLE_STATE
    ensures DiscardStep(s).effects == [Persist(IDLE_STATE), Change]
  {
  }

  /** The session stop() finalises lasts exactly what elapsed reported. */
  lemma {:induction false} StopRecordsElapsed(s: TimerState, now: int)
    requires CanFinalize(s)
    ensures |StopStep(s, now).appended| == 1
    ensures StopStep(s, now).appended[0].end - StopStep(s, now).appended[0].start == ElapsedAt(s, now)
  {
  }

  /** Right after start, elapsed counts from the start instant. */
  lemma {:induction false} ElapsedAfterStart(s: TimerState, p: string, now: int, later: int)
    ensures ElapsedAt(StartStep(s, p, now).state, later) == later - now
    ensures ElapsedAt(IDLE_STATE, later) == 0
  {
  }

  /** Effects come in pairs: a persist immediately followed by 'change'. */
  predicate PersistThenChange(es: seq<Effect>)
    decreases |es|
  {
    es == [] || (|es| >= 2 && es[0].Persist? && es[1] == Change && PersistThenChange(es[2..]))
  }

  lemma {:induction false} PersistThenChangeAppend(a: seq<Effect>, b: seq<Effect>)
    requires PersistThenChange(a) && PersistThenChange(b)
    ensures PersistThenChange(a + b)
    decreases |a|
  {
    if a != [] {
      assert (a + b)[2..] == a[2..] + b;
      PersistThenChangeAppend(a[2..], b);
    } else {
      assert a + b == b;
    }
  }

  /** Every operation persists its new state before it fires 'change', and
      the last state it persists is the state it leaves. */
  lemma {:induction false} StepPersistsThenNotifies(s: TimerState, op: Op)
    ensures PersistThenChange(Apply(s, op).effects)
    ensures var r := Apply(s, op);
      r.effects != [] ==> |r.effects| >= 2 && r.effects[|r.effects| - 2] == Persist(r.state)
  {
    var r := Apply(s, op);
    assert PersistThenChange([]);
    if |r.effects| == 4 {
      assert r.effects[2..][2..] == [];
    }
  }

  lemma {:induction false} RunPersistsThenNotifies(s: TimerState, ops: seq<Op>)
    ensures PersistThenChange(Run(s, ops).effects)
    decreases |ops|
  {
    if ops != [] {
      StepPersistsThenNotifies(s, ops[0]);
      RunPersistsThenNotifies(Apply(s, ops[0]).state, ops[1..]);
      PersistThenChangeAppend(Apply(s, ops[0]).effects, Run(Apply(s, ops[0]).state, ops[1..]).effects);
    }
  }

  /** The clock readings of `ops` never go back and are all at least `t`. */
  predicate ClockFrom(ops: seq<Op>, t: int)
    decreases |ops|
  {
    ops == [] ||
    match ops[0]
    case Start(_, now) => t <= now && ClockFrom(ops[1..], now)
    case Stop(now) => t <= now && ClockFrom(ops[1..], now)
    case Discard => ClockFrom(ops[1..], t)
  }

  /** With a clock that never goes back, every session the timer finalises
      ends at or after its start. */
  lemma {:induction false} RunSessionsForward(s: TimerState, ops: seq<Op>, t: int)
    requires s.startTime.Some? ==> s.startTime.value <= t
    requires ClockFrom(ops, t)
    ensures forall x :: x in Run(s, ops).appended ==> x.start <= x.end
    decreases |ops|
  {
    if ops != [] {
      var first := Apply(s, ops[0]);
      var t' := match ops[0] case Start(_, now) => now case Stop(now) => now case Discard => t;
      RunSessionsForward(first.state, ops[1..], t');
      var rest := Run(first.state, ops[1..]);
      assert Run(s, ops).appended == first.appended + rest.appended;
    }
  }

  // ------------------------------------------------------------------ class

  class Timer {
    var state: TimerState
    const store: Store
    ghost var effects: seq<Effect>

    constructor (store: Store)
      ensures state == IDLE_STATE && this.store == store && effects == []
    {
      state := IDLE_STATE;
      this.store := store;
      effects := [];
    }

    /** load: takes the persisted state as it is, unchecked. */
    method Load(s: TimerState)
      modifies this`state
      ensures state == s
    {
      state := s;
    }

    function Status(): Status
      reads this
    {
      state.status
    }

    function ProjectId(): Option<string>
      reads this
    {
      state.projectId
    }

    function StartTime(): Option<int>
      reads this
    {
      state.startTime
    }

    function Elapsed(now: int): int
      reads this
    {
      ElapsedAt(state, now)
    }

    method Stop(now: int)
      modifies this, store
      ensures state == StopStep(old(state), now).state
      ensures effects == old(effects) + StopStep(old(state), now).effects
      ensures store.sessions == old(store.sessions) + StopStep(old(state), now).appended
      ensures store.projects == old(store.projects)
      ensures store.saves == old(store.saves) + |StopStep(old(state), now).appended|
    {
      if state.status == Idle || !HasProject(state.projectId) || state.startTime.None? {
        return;
      }
      var session := Session(state.projectId.value, state.startTime.value, now);
      store.AddSession(session);
      state := IDLE_STATE;
      effects := effects + [Persist(state)];
      effects := effects + [Change];
    }

    method Start(projectId: string, now: int)
      modifies this, store
      ensures state == StartStep(old(state), projectId, now).state
      ensures effects == old(effects) + StartStep(old(state), projectId, now).effects
      ensures store.sessions == old(store.sessions) + StartStep(old(state), projectId, now).appended
      ensures store.projects == old(store.projects)
      ensures store.saves == old(store.saves) + |StartStep(old(state), projectId, now).appended|
    {
      if state.status == Running {
        Stop(now);
      }
      state := RunningState(projectId, now);
      effects := effects + [Persist(state)];
      effects := effects + [Change];
    }

    method Discard()
      modifies this`state, this`effects
      ensures state == DiscardStep(old(state)).state
      ensures effects == old(effects) + DiscardStep(old(state)).effects
    {
      state := IDLE_STATE;
      effects := effects + [Persist(state)];
      effects := effects + [Change];
    }

    /** trigger('change') from outside the timer. */
    method NotifyChange()
      modifies this`effects
      ensures effects == old(effects) + [Change]
    {
      effects := effects + [Change];
    }
  }
}

/**
 * The memo-sync scheduler of api.py: a memo edit marks the sync flag and
 * (re)arms a debounce timer; when the timer fires, the sync job starts unless
 * an edit is too recent (then the timer is re-armed) or a job is already
 * running (then nothing happens). Every change of the scheduler's globals is
 * mirrored into a small state file, which the status endpoint reads back.
 *
 * Time is an integer number of milliseconds on one clock; the timer thread,
 * the job thread and the lock are replaced by events applied one at a time.
 */
module MemoSync {
  import opened Wrappers

  /** The debounce delay (10 seconds). */
  const Debounce: int := 10000
  /** The tolerance subtracted from the delay when a run is attempted (0.5 seconds). */
  const Margin: int := 500

  /** What one save adds to the three base entries of the state file. */
  datatype Extra =
    | NoExtra
    | RunStarted(startedAt: int)
    | RunFinished(finishedAt: int, returnCode: Option<int>)

  /** The contents of the state file. */
  datatype SavedState = SavedState(lastEditAt: Option<int>, scheduledRunAt: Option<int>, running: bool, extra: Extra)

  /** The scheduler's globals, the sync flag row and the state file. */
  datatype SyncState = SyncState(
    lastEdit: Option<int>,
    scheduledAt: Option<int>,
    timerDue: Option<int>,
    running: bool,
    flagRequired: bool,
    flagRequestedAt: Option<int>,
    saved: Option<SavedState>)

  /** The scheduler at process start: nothing edited, no timer, no job, no file. */
  const Initial: SyncState := SyncState(None, None, None, false, false, None, None)

  /** Python truthiness of an optional timestamp (`None` and `0` are false). */
  predicate Truthy(t: Option<int>) {
    t.Some? && t.value != 0
  }

  /** A timestamp as the state file and the status show it: `None` when falsy. */
  function Shown(t: Option<int>): (r: Option<int>)
    ensures r.Some? <==> Truthy(t)
    ensures r.Some? ==> r == t
  {
    if Truthy(t) then t else None
  }

  /** `_save_memo_sync_state(extra)`: the file is rewritten from the three
      base entries and this save's extra only. */
  function Save(s: SyncState, extra: Extra): SyncState {
    s.(saved := Some(SavedState(Shown(s.lastEdit), Shown(s.scheduledAt), s.running, extra)))
  }

  /** `_schedule_memo_sync_locked`: cancel any armed timer, arm a new one for
      one debounce delay from now, and save. */
  function Schedule(s: SyncState, now: int): SyncState {
    Save(s.(scheduledAt := Some(now + Debounce), timerDue := Some(now + Debounce)), NoExtra)
  }

  datatype Attempt = Deferred | SkippedRunning | Started

  /** `_run_memo_sync_subprocess`, up to the start of the job thread. */
  function TryRun(s: SyncState, now: int): (SyncState, Attempt) {
    if Truthy(s.lastEdit) && now - s.lastEdit.value < Debounce - Margin then (Schedule(s, now), Deferred)
    else if s.running then (s, SkippedRunning)
    else (Save(s.(running := true, scheduledAt := None), RunStarted(now)), Started)
  }

  /** The timer is no longer armed: it fired, or it was cancelled. */
  function Disarm(s: SyncState): SyncState {
    s.(timerDue := None)
  }

  /** `memo_edit_touch`: raise the sync flag, record the edit and re-arm the timer. */
  function Touch(s: SyncState, now: int): SyncState {
    Schedule(s.(flagRequired := true, flagRequestedAt := Some(now), lastEdit := Some(now)), now)
  }

  /** The timer fires and calls the run attempt. */
  function Fire(s: SyncState, now: int): (SyncState, Attempt) {
    TryRun(Disarm(s), now)
  }

  /** `memo_sync_run_now`: cancel the timer, then the same run attempt. */
  function RunNow(s: SyncState, now: int): (SyncState, Attempt) {
    TryRun(Disarm(s), now)
  }

  /** The job thread's `finally`: not running any more, and the outcome saved. */
  function JobExit(s: SyncState, now: int, returnCode: Option<int>): SyncState {
    Save(s.(running := false), RunFinished(now, returnCode))
  }

  /** The answer of `memo_sync_status`. */
  datatype StatusView = StatusView(
    running: bool,
    scheduledRunAt: Option<int>,
    lastEditAt: Option<int>,
    lastRunStartedAt: Option<int>,
    lastRunFinishedAt: Option<int>,
    lastReturnCode: Option<Option<int>>)

  /** `memo_sync_status`: the file read back, with the live running flag, the
      live schedule, and the live edit time when there is one. */
  function Status(s: SyncState): (v: StatusView)
    ensures v.running == s.running
    ensures v.scheduledRunAt == Shown(s.scheduledAt)
    ensures Truthy(s.lastEdit) ==> v.lastEditAt == s.lastEdit
    ensures !Truthy(s.lastEdit) ==> v.lastEditAt == (if s.saved.Some? then s.saved.value.lastEditAt else None)
    ensures v.lastRunStartedAt.Some? <==> s.saved.Some? && s.saved.value.extra.RunStarted?
    ensures v.lastRunStartedAt.Some? ==> v.lastRunStartedAt.value == s.saved.value.extra.startedAt
    ensures v.lastRunFinishedAt.Some? <==> s.saved.Some? && s.saved.value.extra.RunFinished?
    ensures v.lastRunFinishedAt.Some? ==> v.lastRunFinishedAt.value == s.saved.value.extra.finishedAt
    ensures v.lastReturnCode.Some? <==> v.lastRunFinishedAt.Some?
    ensures v.lastReturnCode.Some? ==> v.lastReturnCode.value == s.saved.value.extra.returnCode
  {
    var fileEdit := if s.saved.Some? then s.saved.value.lastEditAt else None;
    var extra := if s.saved.Some? then s.saved.value.extra else NoExtra;
    StatusView(
      s.running,
      Shown(s.scheduledAt),
      if Truthy(s.lastEdit) then s.lastEdit else fileEdit,
      if extra.RunStarted? then Some(extra.startedAt) else None,
      if extra.RunFinished? then Some(extra.finishedAt) else None,
      if extra.RunFinished? then Some(extra.returnCode) else None)
  }

  // ---------------------------------------------------------------------------
  // Properties of single steps
  // ---------------------------------------------------------------------------

  /** A touch raises the flag, records the edit and arms exactly one timer,
      due one debounce delay later; the job state is untouched, and the file
      is rewritten without any earlier run's start or finish. */
  lemma TouchArmsTimer(s: SyncState, now: int)
    requires now > 0
    ensures var t := Touch(s, now);
      && t.flagRequired && t.flagRequestedAt == Some(now)
      && t.lastEdit == Some(now)
      && t.timerDue == Some(now + Debounce) && t.scheduledAt == Some(now + Debounce)
      && t.running == s.running
      && t.saved == Some(SavedState(Some(now), Some(now + Debounce), s.running, NoExtra))
      && Status(t).lastRunFinishedAt.None? && Status(t).lastRunStartedAt.None?
  {
  }

  /** No job starts less than the debounce delay minus the margin after the
      last edit: the attempt is deferred and the timer re-armed, by the timer
      as by run-now. */
  lemma NoStartWithinDebounce(s: SyncState, now: int)
    requires Truthy(s.lastEdit) && now - s.lastEdit.value < Debounce - Margin
    ensures Fire(s, now).1 == Deferred && RunNow(s, now).1 == Deferred
    ensures Fire(s, now).0.running == s.running
    ensures Fire(s, now).0.timerDue == Some(now + Debounce)
  {
  }

  /** Once the edit is old enough, an attempt starts the job exactly when none is running. */
  lemma StartsWhenQuiet(s: SyncState, now: int)
    requires !Truthy(s.lastEdit) || now - s.lastEdit.value >= Debounce - Margin
    ensures var (t, a) := Fire(s, now);
      && (a == Started <==> !s.running)
      && (a == Started ==> t.running && t.scheduledAt.None? && t.timerDue.None?
                           && t.saved.value.extra == RunStarted(now))
      && (a == SkippedRunning ==> t == Disarm(s))
  {
  }

  /** A timer that fires while a job runs is used up without effect: no timer
      is left armed, yet the schedule still shows the time it was due. */
  lemma FireWhileRunningLeavesStaleSchedule(s: SyncState, now: int)
    requires s.running
    requires !Truthy(s.lastEdit) || now - s.lastEdit.value >= Debounce - Margin
    ensures Fire(s, now) == (s.(timerDue := None), SkippedRunning)
    ensures Status(Fire(s, now).0).scheduledRunAt == Shown(s.scheduledAt)
  {
  }

  // ---------------------------------------------------------------------------
  // Traces
  // ---------------------------------------------------------------------------

  datatype Event =
    | EditTouched(at: int)
    | TimerFired(at: int)
    | RunNowCalled(at: int)
    | JobExited(at: int, returnCode: Option<int>)

  /** An event can happen: a timer fires only when armed and due, and only a running job exits. */
  predicate Enabled(s: SyncState, e: Event) {
    match e
    case TimerFired(t) => s.timerDue.Some? && t >= s.timerDue.value
    case JobExited(_, _) => s.running
    case _ => true
  }

  /** One event: the new state and whether it started a job. */
  function Step(s: SyncState, e: Event): (SyncState, bool) {
    match e
    case EditTouched(t) => (Touch(s, t), false)
    case TimerFired(t) => var (s', a) := Fire(s, t); (s', a == Started)
    case RunNowCalled(t) => var (s', a) := RunNow(s, t); (s', a == Started)
    case JobExited(t, rc) => (JobExit(s, t, rc), false)
  }

  function Run(s: SyncState, es: seq<Event>): SyncState
    decreases |es|
  {
    if es == [] then s else Run(Step(s, es[0]).0, es[1..])
  }

  /** The number of jobs a sequence of events starts. */
  function Starts(s: SyncState, es: seq<Event>): nat
    decreases |es|
  {
    if es == [] then 0
    else (if Step(s, es[0]).1 then 1 else 0) + Starts(Step(s, es[0]).0, es[1..])
  }

  function Exits(es: seq<Event>): nat {
    if es == [] then 0 else (if es[0].JobExited? then 1 else 0) + Exits(es[1..])
  }

  predicate Legal(s: SyncState, es: seq<Event>)
    decreases |es|
  {
    es == [] || (Enabled(s, es[0]) && Legal(Step(s, es[0]).0, es[1..]))
  }

  function B(b: bool): int { if b then 1 else 0 }

  /** At most one sync job runs at a time: along any legal sequence of events,
      the jobs started minus the jobs that exited is exactly the change of the
      running flag, so a second job never starts before the first exits. */
  lemma {:induction false} SingleRunner(s: SyncState, es: seq<Event>)
    requires Legal(s, es)
    ensures Starts(s, es) - Exits(es) == B(Run(s, es).running) - B(s.running)
    decreases |es|
  {
    if es != [] {
      SingleRunner(Step(s, es[0]).0, es[1..]);
    }
  }

  /** From a state with no job, a legal sequence starts at most one more job than it sees exit. */
  lemma {:induction false} AtMostOneUnfinished(s: SyncState, es: seq<Event>)
    requires Legal(s, es) && !s.running
    ensures Starts(s, es) <= Exits(es) + 1
  {
    SingleRunner(s, es);
  }

  function Touches(ts: seq<int>): (es: seq<Event>)
    ensures |es| == |ts|
  {
    seq(|ts|, k requires 0 <= k < |ts| => EditTouched(ts[k]))
  }

  /** After a burst of edits, the timer and schedule point one delay past the
      last one; the job state is as it was and no job started. */
  lemma {:induction false} BurstOfTouches(s: SyncState, ts: seq<int>)
    requires ts != []
    ensures var t := Run(s, Touches(ts));
      && t.lastEdit == Some(ts[|ts| - 1])
      && t.timerDue == Some(ts[|ts| - 1] + Debounce)
      && t.scheduledAt == Some(ts[|ts| - 1] + Debounce)
      && t.running == s.running
      && t.flagRequired
    ensures Starts(s, Touches(ts)) == 0
    ensures Legal(s, Touches(ts))
    decreases |ts|
  {
    var s1 := Touch(s, ts[0]);
    assert Touches(ts)[0] == EditTouched(ts[0]);
    assert Touches(ts)[1..] == Touches(ts[1..]);
    if |ts| > 1 {
      BurstOfTouches(s1, ts[1..]);
    }
  }

  lemma {:induction false} RunAppend(s: SyncState, es: seq<Event>, e: Event)
    ensures Run(s, es + [e]) == Step(Run(s, es), e).0
    ensures Starts(s, es + [e]) == Starts(s, es) + (if Step(Run(s, es), e).1 then 1 else 0)
    ensures Legal(s, es) && Enabled(Run(s, es), e) ==> Legal(s, es + [e])
    decreases |es|
  {
    if es == [] {
      assert [e][1..] == [];
    } else {
      assert (es + [e])[0] == es[0];
      assert (es + [e])[1..] == es[1..] + [e];
      RunAppend(Step(s, es[0]).0, es[1..], e);
    }
  }

  /** Debouncing: edits each less than the delay apart, with no job running,
      followed by the timer of the last one, start exactly one job, at the end. */
  lemma {:induction false} BurstRunsOnce(s: SyncState, ts: seq<int>)
    requires ts != [] && !s.running
    ensures var es := Touches(ts) + [TimerFired(ts[|ts| - 1] + Debounce)];
      && Legal(s, es)
      && Starts(s, es) == 1
      && Run(s, es).running
      && Run(s, es).timerDue.None?
  {
    var last := ts[|ts| - 1];
    BurstOfTouches(s, ts);
    RunAppend(s, Touches(ts), TimerFired(last + Debounce));
  }

  /** The scenario of edits at 1 s and 6 s: the timer armed by the first is
      replaced by the second's, due at 16 s, and that one start happens there. */
  lemma TwoEditsOneRun()
    ensures var es := [EditTouched(1000), EditTouched(6000), TimerFired(16000)];
      && Legal(Initial, es)
      && Starts(Initial, es) == 1
      && Run(Initial, es).running
  {
    BurstRunsOnce(Initial, [1000, 6000]);
    assert Touches([1000, 6000]) == [EditTouched(1000), EditTouched(6000)];
  }

  /** An edit made while a job runs is not run again by itself: if its timer
      fires before the job exits, no timer is left once the job has exited,
      so no further job starts without a new event. */
  lemma EditDuringRunNotRetried(s: SyncState, t: int, exitAt: int, rc: Option<int>)
    requires s.running && t > 0
    ensures var es := [EditTouched(t), TimerFired(t + Debounce), JobExited(exitAt, rc)];
      && Legal(s, es)
      && Starts(s, es) == 0
      && !Run(s, es).running
      && Run(s, es).timerDue.None?
  {
    var es := [EditTouched(t), TimerFired(t + Debounce), JobExited(exitAt, rc)];
    var s1 := Touch(s, t);
    var s2 := Fire(s1, t + Debounce).0;
    assert Step(s, es[0]) == (s1, false);
    assert Step(s1, es[1]) == (s2, false);
    assert es[1..][1..] == [JobExited(exitAt, rc)];
    assert s2 == Disarm(s1) && s2.running;
    assert Run(s2, [JobExited(exitAt, rc)]) == JobExit(s2, exitAt, rc);
    assert Legal(s2, es[1..][1..]);
    assert Legal(s1, es[1..]);
    assert Starts(s2, es[1..][1..]) == 0;
    assert Starts(s1, es[1..]) == 0;
  }

  // ---------------------------------------------------------------------------
  // The scheduler as the service holds it
  // ---------------------------------------------------------------------------

  class MemoSyncScheduler {
    var lastEdit: Option<int>
    var scheduledAt: Option<int>
    var timerDue: Option<int>
    var running: bool
    var flagRequired: bool
    var flagRequestedAt: Option<int>
    var saved: Option<SavedState>

    function State(): SyncState
      reads this
    {
      SyncState(lastEdit, scheduledAt, timerDue, running, flagRequired, flagRequestedAt, saved)
    }

    constructor ()
      ensures State() == Initial
    {
      lastEdit := None;
      scheduledAt := None;
      timerDue := None;
      running := false;
      flagRequired := false;
      flagRequestedAt := None;
      saved := None;
    }

    method SaveState(extra: Extra)
      modifies this
      ensures State() == Save(old(State()), extra)
    {
      saved := Some(SavedState(Shown(lastEdit), Shown(scheduledAt), running, extra));
    }

    method ScheduleLocked(now: int)
      modifies this
      ensures State() == Schedule(old(State()), now)
    {
      timerDue := Some(now + Debounce);
      scheduledAt := Some(now + Debounce);
      SaveState(NoExtra);
    }

    /** `_run_memo_sync_subprocess` under the lock. */
    method RunSubprocess(now: int) returns (a: Attempt)
      modifies this
      ensures (State(), a) == TryRun(old(State()), now)
    {
      if Truthy(lastEdit) && now - lastEdit.value < Debounce - Margin {
        ScheduleLocked(now);
        return Deferred;
      }
      if running {
        return SkippedRunning;
      }
      running := true;
      scheduledAt := None;
      SaveState(RunStarted(now));
      a := Started;
    }

    /** `memo_edit_touch`: the answer's edit time and scheduled time. */
    method EditTouch(now: int) returns (lastEditAt: int, scheduledRunAt: Option<int>)
      modifies this
      ensures State() == Touch(old(State()), now)
      ensures lastEditAt == now && scheduledRunAt == Shown(Some(now + Debounce))
    {
      flagRequired := true;
      flagRequestedAt := Some(now);
      lastEdit := Some(now);
      ScheduleLocked(now);
      lastEditAt := now;
      scheduledRunAt := Shown(scheduledAt);
    }

    /** The debounce timer's callback. */
    method TimerFire(now: int) returns (a: Attempt)
      requires timerDue.Some? && now >= timerDue.value
      modifies this
      ensures (State(), a) == Fire(old(State()), now)
    {
      timerDue := None;
      a := RunSubprocess(now);
    }

    /** `memo_sync_run_now`. */
    method RunNowRequest(now: int) returns (a: Attempt)
      modifies this
      ensures (State(), a) == RunNow(old(State()), now)
    {
      timerDue := None;
      a := RunSubprocess(now);
    }

    /** The job thread's `finally`. */
    method JobFinished(now: int, returnCode: Option<int>)
      requires running
      modifies this
      ensures State() == JobExit(old(State()), now, returnCode)
    {
      running := false;
      SaveState(RunFinished(now, returnCode));
    }

    /** `memo_sync_status`. */
    method StatusRequest() returns (v: StatusView)
      ensures v == Status(State())
      ensures v.running == running && v.scheduledRunAt == Shown(scheduledAt)
    {
      var extra := if saved.Some? then saved.value.extra else NoExtra;
      var edit := if Truthy(lastEdit) then lastEdit else if saved.Some? then saved.value.lastEditAt else None;
      v := StatusView(running, Shown(scheduledAt), edit,
                      if extra.RunStarted? then Some(extra.startedAt) else None,
                      if extra.RunFinished? then Some(extra.finishedAt) else None,
                      if extra.RunFinished? then Some(extra.returnCode) else None);
    }
  }
}

/**
 * Start, Stop and the loop of the renewal scheduler, as a state machine. Any number of Start and Stop
 * callers, and every launched loop, run one statement at a time in any order around one mutex and two
 * channels.
 */
module SchedulerLifecycle {
  import opened Wrappers

  /** Before Lock; holding the lock; leaving early; leaving after started := true; before the go statement. */
  datatype StartPc = StartEntry | StartLocked | Refused | Accepted | Launching | StartDone

  /**
   * Before Lock; holding the lock; leaving early; after stopped := true, having read started as true or as
   * false; after close(stopCh) in those two cases; after close(doneCh); waiting for doneCh; returned from the
   * call that set stopped; returned from a later one.
   */
  datatype StopPc =
    | StopEntry | StopLocked | TooLate | MarkedStarted | MarkedIdle | ClosedStarted | ClosedIdle | DoneClosed
    | Waiting | Returned | ReturnedLate

  /** Before the select; at the select; in RunOnce; in RunOnce holding the lock; leaving; left. */
  datatype LoopPc = Top | Select | Running | RunningLocked | Leaving | Left

  datatype Owner = Free | ByStart(start: nat) | ByStop(stop: nat) | ByLoop(loop: nat)

  /**
   * `stopCloses` and `doneCloses` count the close calls on the two channels: a second one would panic.
   * Two history variables: `pending` is the Start call that owes a loop, `first` the Stop call that set
   * stopped.
   */
  datatype State = State(
    started: bool, stopped: bool, owner: Owner, stopCloses: nat, doneCloses: nat, cancelled: bool,
    starts: map<nat, StartPc>, stops: map<nat, StopPc>, loops: seq<LoopPc>,
    pending: Option<nat>, first: Option<nat>)

  predicate Initial(s: State) {
    s == State(false, false, Free, 0, 0, false, map[], map[], [], None, None)
  }

  datatype LoopEvent = ComputeNext | TimerFires | SeeCancel | SeeStop | LockInRun | UnlockInRun | EndRun | CloseDone

  datatype Event =
    | Cancel
    | CallStart(start: nat) | StartStep(start: nat)
    | CallStop(stop: nat) | StopStep(stop: nat)
    | LoopStep(loop: nat, what: LoopEvent)

  predicate Enabled(s: State, e: Event) {
    match e
    case Cancel => true
    case CallStart(t) => t !in s.starts
    case StartStep(t) => t in s.starts && s.starts[t] != StartDone && (s.starts[t].StartEntry? ==> s.owner.Free?)
    case CallStop(t) => t !in s.stops
    case StopStep(t) =>
      && t in s.stops && !s.stops[t].Returned? && !s.stops[t].ReturnedLate?
      && (s.stops[t].StopEntry? ==> s.owner.Free?)
      && (s.stops[t].Waiting? ==> s.doneCloses > 0)
    case LoopStep(l, what) =>
      l < |s.loops| && LoopEnabled(s, s.loops[l], what)
  }

  predicate LoopEnabled(s: State, pc: LoopPc, what: LoopEvent) {
    match what
    case ComputeNext => pc.Top?
    case TimerFires => pc.Select?
    case SeeCancel => pc.Select? && s.cancelled
    case SeeStop => pc.Select? && s.stopCloses > 0
    case LockInRun => pc.Running? && s.owner.Free?
    case UnlockInRun => pc.RunningLocked?
    case EndRun => pc.Running?
    case CloseDone => pc.Leaving?
  }

  function StartNext(s: State, t: nat): State
    requires Enabled(s, StartStep(t))
  {
    match s.starts[t]
    case StartEntry => s.(starts := s.starts[t := StartLocked], owner := ByStart(t))
    case StartLocked =>
      if s.started || s.stopped then s.(starts := s.starts[t := Refused])
      else s.(starts := s.starts[t := Accepted], started := true, pending := Some(t))
    case Refused => s.(starts := s.starts[t := StartDone], owner := Free)
    case Accepted => s.(starts := s.starts[t := Launching], owner := Free)
    case Launching => s.(starts := s.starts[t := StartDone], loops := s.loops + [Top], pending := None)
  }

  function StopNext(s: State, t: nat): (s': State)
    requires Enabled(s, StopStep(t))
    ensures t in s'.stops && s'.stops == s.stops[t := s'.stops[t]] && s'.starts == s.starts && s'.loops == s.loops
    ensures s'.started == s.started && s'.pending == s.pending
  {
    match s.stops[t]
    case StopEntry => s.(stops := s.stops[t := StopLocked], owner := ByStop(t))
    case StopLocked =>
      if s.stopped then s.(stops := s.stops[t := TooLate])
      else s.(stops := s.stops[t := if s.started then MarkedStarted else MarkedIdle], stopped := true, first := Some(t))
    case TooLate => s.(stops := s.stops[t := ReturnedLate], owner := Free)
    case MarkedStarted => s.(stops := s.stops[t := ClosedStarted], stopCloses := s.stopCloses + 1)
    case MarkedIdle => s.(stops := s.stops[t := ClosedIdle], stopCloses := s.stopCloses + 1)
    case ClosedStarted => s.(stops := s.stops[t := Waiting], owner := Free)
    case ClosedIdle => s.(stops := s.stops[t := DoneClosed], doneCloses := s.doneCloses + 1)
    case DoneClosed => s.(stops := s.stops[t := Returned], owner := Free)
    case Waiting => s.(stops := s.stops[t := Returned])
  }

  function LoopNext(s: State, l: nat, what: LoopEvent): State
    requires Enabled(s, LoopStep(l, what))
  {
    match what
    case ComputeNext => s.(loops := s.loops[l := Select])
    case TimerFires => s.(loops := s.loops[l := Running])
    case SeeCancel => s.(loops := s.loops[l := Leaving])
    case SeeStop => s.(loops := s.loops[l := Leaving])
    case LockInRun => s.(loops := s.loops[l := RunningLocked], owner := ByLoop(l))
    case UnlockInRun => s.(loops := s.loops[l := Running], owner := Free)
    case EndRun => s.(loops := s.loops[l := Top])
    case CloseDone => s.(loops := s.loops[l := Left], doneCloses := s.doneCloses + 1)
  }

  function Next(s: State, e: Event): State
    requires Enabled(s, e)
  {
    match e
    case Cancel => s.(cancelled := true)
    case CallStart(t) => s.(starts := s.starts[t := StartEntry])
    case StartStep(t) => StartNext(s, t)
    case CallStop(t) => s.(stops := s.stops[t := StopEntry])
    case StopStep(t) => StopNext(s, t)
    case LoopStep(l, what) => LoopNext(s, l, what)
  }

  // ---------- the invariant ----------

  predicate StartHolds(pc: StartPc) {
    pc.StartLocked? || pc.Refused? || pc.Accepted?
  }

  predicate IsMarked(pc: StopPc) {
    pc.MarkedStarted? || pc.MarkedIdle?
  }

  predicate IsClosed(pc: StopPc) {
    pc.ClosedStarted? || pc.ClosedIdle?
  }

  predicate StopHolds(pc: StopPc) {
    pc.StopLocked? || pc.TooLate? || IsMarked(pc) || IsClosed(pc) || pc.DoneClosed?
  }

  /** This Stop call is the one that set stopped. */
  predicate IsFirst(pc: StopPc) {
    IsMarked(pc) || IsClosed(pc) || pc.DoneClosed? || pc.Waiting? || pc.Returned?
  }

  ghost predicate MutexInvariant(s: State) {
    && (s.owner.ByStart? ==> s.owner.start in s.starts)
    && (s.owner.ByStop? ==> s.owner.stop in s.stops)
    && (s.owner.ByLoop? ==> s.owner.loop < |s.loops|)
    && (forall t :: t in s.starts ==> (StartHolds(s.starts[t]) <==> s.owner == ByStart(t)))
    && (forall t :: t in s.stops ==> (StopHolds(s.stops[t]) <==> s.owner == ByStop(t)))
    && (forall l :: 0 <= l < |s.loops| ==> (s.loops[l].RunningLocked? <==> s.owner == ByLoop(l)))
  }

  ghost predicate RolesInvariant(s: State) {
    && (s.pending.Some? ==> s.pending.value in s.starts)
    && (forall t :: t in s.starts ==> (s.starts[t].Accepted? || s.starts[t].Launching? <==> s.pending == Some(t)))
    && |s.loops| <= 1
    && (s.pending.Some? ==> |s.loops| == 0)
    && (s.started <==> s.pending.Some? || |s.loops| == 1)
    && (s.stopped <==> s.first.Some?)
    && (s.first.Some? ==> s.first.value in s.stops)
    && (forall t :: t in s.stops ==> (IsFirst(s.stops[t]) <==> s.first == Some(t)))
  }

  function FirstPc(s: State): StopPc
    requires s.first.Some? ==> s.first.value in s.stops
  {
    if s.first.Some? then s.stops[s.first.value] else StopEntry
  }

  predicate LoopLeft(s: State) {
    |s.loops| > 0 && s.loops[0].Left?
  }

  /** What the first Stop call's position says about the channels, given whether the loop has left. */
  predicate Channels(started: bool, stopped: bool, first: StopPc, left: bool, stopCloses: nat, doneCloses: nat) {
    && stopCloses == (if stopped && !IsMarked(first) then 1 else 0)
    && doneCloses == (if left || first.DoneClosed? || (first.Returned? && !started) then 1 else 0)
    && (first.MarkedStarted? || first.ClosedStarted? || first.Waiting? ==> started)
    && (first.MarkedIdle? || first.ClosedIdle? || first.DoneClosed? ==> !started)
    && (first.Returned? ==> doneCloses == 1)
  }

  ghost predicate ChannelsInvariant(s: State)
    requires RolesInvariant(s)
  {
    Channels(s.started, s.stopped, FirstPc(s), LoopLeft(s), s.stopCloses, s.doneCloses)
  }

  ghost predicate Invariant(s: State) {
    MutexInvariant(s) && RolesInvariant(s) && ChannelsInvariant(s)
  }

  lemma InitialInvariant(s: State)
    requires Initial(s)
    ensures Invariant(s)
  {
  }

  /** A Start call moves to `pc` while keeping, taking or releasing the lock. */
  lemma StartMoves(s: State, s': State, t: nat, pc: StartPc)
    requires MutexInvariant(s)
    requires s'.starts == s.starts[t := pc] && s'.stops == s.stops && s.loops <= s'.loops
    requires forall l :: |s.loops| <= l < |s'.loops| ==> s'.loops[l].Top?
    requires
      || (s'.owner == s.owner && (StartHolds(pc) <==> s.owner == ByStart(t)))
      || (s.owner.Free? && s'.owner == ByStart(t) && StartHolds(pc))
      || (s.owner == ByStart(t) && s'.owner.Free? && !StartHolds(pc))
    ensures MutexInvariant(s')
  {
  }

  /** A Stop call likewise. */
  lemma StopMoves(s: State, s': State, t: nat, pc: StopPc)
    requires MutexInvariant(s)
    requires s'.starts == s.starts && s'.stops == s.stops[t := pc] && s'.loops == s.loops
    requires
      || (s'.owner == s.owner && (StopHolds(pc) <==> s.owner == ByStop(t)))
      || (s.owner.Free? && s'.owner == ByStop(t) && StopHolds(pc))
      || (s.owner == ByStop(t) && s'.owner.Free? && !StopHolds(pc))
    ensures MutexInvariant(s')
  {
  }

  lemma StartRoles(s: State, s': State, t: nat, pc: StartPc)
    requires RolesInvariant(s)
    requires s'.starts == s.starts[t := pc] && s'.stops == s.stops && s'.stopped == s.stopped && s'.first == s.first
    requires
      || (s'.pending == s.pending && s'.loops == s.loops && s'.started == s.started
          && (pc.Accepted? || pc.Launching? <==> s.pending == Some(t)))
      || (!s.started && s'.started && s'.pending == Some(t) && s'.loops == s.loops && pc.Accepted?)
      || (s.pending == Some(t) && s'.pending == None && s'.loops == s.loops + [Top] && s'.started == s.started
          && !pc.Accepted? && !pc.Launching?)
    ensures RolesInvariant(s')
  {
  }

  lemma StopRoles(s: State, s': State, t: nat, pc: StopPc)
    requires RolesInvariant(s)
    requires s'.starts == s.starts && s'.stops == s.stops[t := pc] && s'.loops == s.loops
    requires s'.started == s.started && s'.pending == s.pending
    requires
      || (s'.first == s.first && s'.stopped == s.stopped && (IsFirst(pc) <==> s.first == Some(t)))
      || (!s.stopped && s'.stopped && s'.first == Some(t) && IsFirst(pc))
    ensures RolesInvariant(s')
    ensures FirstPc(s') == if IsFirst(pc) then pc else FirstPc(s)
  {
  }

  /** No Stop call is between setting stopped and releasing the lock while a Start call holds it. */
  lemma StartExcludesStop(s: State, t: nat)
    requires MutexInvariant(s) && RolesInvariant(s) && t in s.starts && StartHolds(s.starts[t])
    ensures s.first.Some? ==> !StopHolds(FirstPc(s))
  {
  }

  lemma StartKeepsInvariant(s: State, t: nat)
    requires Invariant(s) && Enabled(s, StartStep(t))
    ensures Invariant(StartNext(s, t))
  {
    hide MutexInvariant, RolesInvariant, ChannelsInvariant;
    StartKeepsMutex(s, t);
    StartKeepsRoles(s, t);
    StartKeepsChannels(s, t);
  }

  lemma StartKeepsMutex(s: State, t: nat)
    requires MutexInvariant(s) && Enabled(s, StartStep(t))
    ensures MutexInvariant(StartNext(s, t))
  {
    assert StartHolds(s.starts[t]) <==> s.owner == ByStart(t);
    hide MutexInvariant;
    StartMoves(s, StartNext(s, t), t, StartNext(s, t).starts[t]);
  }

  lemma StartKeepsRoles(s: State, t: nat)
    requires RolesInvariant(s) && Enabled(s, StartStep(t))
    ensures RolesInvariant(StartNext(s, t))
  {
    assert s.starts[t].Accepted? || s.starts[t].Launching? <==> s.pending == Some(t);
    assert s.started <==> s.pending.Some? || |s.loops| == 1;
    hide RolesInvariant;
    StartRoles(s, StartNext(s, t), t, StartNext(s, t).starts[t]);
  }

  lemma StartKeepsChannels(s: State, t: nat)
    requires Invariant(s) && Enabled(s, StartStep(t)) && RolesInvariant(StartNext(s, t))
    ensures ChannelsInvariant(StartNext(s, t))
  {
    var s' := StartNext(s, t);
    if StartHolds(s.starts[t]) {
      StartExcludesStop(s, t);
    }
    assert FirstPc(s') == FirstPc(s) && (LoopLeft(s') <==> LoopLeft(s)) && (s.stopped <==> s.first.Some?);
    hide MutexInvariant, RolesInvariant, FirstPc, LoopLeft;
  }

  lemma StopKeepsMutex(s: State, t: nat)
    requires MutexInvariant(s) && Enabled(s, StopStep(t))
    ensures MutexInvariant(StopNext(s, t))
  {
    assert StopHolds(s.stops[t]) <==> s.owner == ByStop(t);
    hide MutexInvariant;
    StopMoves(s, StopNext(s, t), t, StopNext(s, t).stops[t]);
  }

  lemma StopKeepsRoles(s: State, t: nat)
    requires RolesInvariant(s) && Enabled(s, StopStep(t))
    ensures RolesInvariant(StopNext(s, t))
    ensures var pc := StopNext(s, t).stops[t]; FirstPc(StopNext(s, t)) == if IsFirst(pc) then pc else FirstPc(s)
  {
    assert (IsFirst(s.stops[t]) <==> s.first == Some(t)) && (s.stopped <==> s.first.Some?);
    hide RolesInvariant, FirstPc;
    StopRoles(s, StopNext(s, t), t, StopNext(s, t).stops[t]);
  }

  lemma StopKeepsInvariant(s: State, t: nat)
    requires Invariant(s) && Enabled(s, StopStep(t))
    ensures Invariant(StopNext(s, t))
  {
    var s' := StopNext(s, t);
    StopKeepsMutex(s, t);
    StopKeepsRoles(s, t);
    assert IsFirst(s.stops[t]) ==> FirstPc(s) == s.stops[t];
    assert s.stopped <==> s.first.Some?;
    assert s.first.None? ==> FirstPc(s) == StopEntry;
    hide MutexInvariant, RolesInvariant, FirstPc, LoopLeft;
    LoopLeftDependsOnLoops(s, s');
  }

  lemma LoopLeftDependsOnLoops(s: State, s': State)
    requires s.loops == s'.loops
    ensures LoopLeft(s) == LoopLeft(s')
  {
  }

  lemma LoopKeepsInvariant(s: State, l: nat, what: LoopEvent)
    requires Invariant(s) && Enabled(s, LoopStep(l, what))
    ensures Invariant(LoopNext(s, l, what))
  {
    assert l == 0 && s.started;
  }

  lemma CancelKeepsInvariant(s: State)
    requires Invariant(s)
    ensures Invariant(Next(s, Cancel))
  {
  }

  lemma CallStartKeepsInvariant(s: State, t: nat)
    requires Invariant(s) && Enabled(s, CallStart(t))
    ensures Invariant(Next(s, CallStart(t)))
  {
    var s' := Next(s, CallStart(t));
    StartMoves(s, s', t, StartEntry);
    StartRoles(s, s', t, StartEntry);
  }

  lemma CallStopKeepsInvariant(s: State, t: nat)
    requires Invariant(s) && Enabled(s, CallStop(t))
    ensures Invariant(Next(s, CallStop(t)))
  {
    var s' := Next(s, CallStop(t));
    StopMoves(s, s', t, StopEntry);
    StopRoles(s, s', t, StopEntry);
  }

  lemma StepKeepsInvariant(s: State, e: Event)
    requires Invariant(s) && Enabled(s, e)
    ensures Invariant(Next(s, e))
  {
    hide Invariant, StartNext, StopNext, LoopNext;
    match e {
      case Cancel => CancelKeepsInvariant(s);
      case CallStart(t) => CallStartKeepsInvariant(s, t);
      case CallStop(t) => CallStopKeepsInvariant(s, t);
      case StartStep(t) => StartKeepsInvariant(s, t);
      case StopStep(t) => StopKeepsInvariant(s, t);
      case LoopStep(l, what) => LoopKeepsInvariant(s, l, what);
    }
  }

  // ---------- every run ----------

  ghost predicate IsRun(states: seq<State>, events: seq<Event>) {
    && |states| == |events| + 1
    && Initial(states[0])
    && forall i :: 0 <= i < |events| ==> Enabled(states[i], events[i]) && states[i + 1] == Next(states[i], events[i])
  }

  lemma {:induction false} RunInvariant(states: seq<State>, events: seq<Event>, i: nat)
    requires IsRun(states, events) && i < |states|
    ensures Invariant(states[i])
  {
    hide Invariant, Enabled, Next;
    if i == 0 {
      InitialInvariant(states[0]);
    } else {
      RunInvariant(states, events, i - 1);
      StepKeepsInvariant(states[i - 1], events[i - 1]);
    }
  }

  /** However many callers there are, one loop is launched at most and no channel is closed twice. */
  lemma OneLoopNoDoubleClose(states: seq<State>, events: seq<Event>, i: nat)
    requires IsRun(states, events) && i < |states|
    ensures |states[i].loops| <= 1 && states[i].stopCloses <= 1 && states[i].doneCloses <= 1
  {
    hide Enabled, Next;
    RunInvariant(states, events, i);
  }

  /** The states of a first Start that nothing interrupts. */
  function Launch(t: nat, i: nat): State {
    var start := State(false, false, Free, 0, 0, false, map[], map[], [], None, None);
    match i
    case 0 => start
    case 1 => start.(starts := map[t := StartEntry])
    case 2 => start.(starts := map[t := StartLocked], owner := ByStart(t))
    case 3 => start.(starts := map[t := Accepted], owner := ByStart(t), started := true, pending := Some(t))
    case 4 => start.(starts := map[t := Launching], started := true, pending := Some(t))
    case _ => start.(starts := map[t := StartDone], started := true, loops := [Top])
  }

  lemma LaunchStep(t: nat, i: nat)
    requires 0 < i < 5
    ensures Enabled(Launch(t, i), StartStep(t)) && Launch(t, i + 1) == StartNext(Launch(t, i), t)
  {
    assert map[t := StartEntry][t := StartLocked] == map[t := StartLocked];
    assert map[t := StartLocked][t := Accepted] == map[t := Accepted];
    assert map[t := Accepted][t := Launching] == map[t := Launching];
    assert map[t := Launching][t := StartDone] == map[t := StartDone];
  }

  /** It launches the loop and frees the lock. */
  lemma StartLaunches(t: nat) returns (states: seq<State>, events: seq<Event>)
    ensures IsRun(states, events) && |events| == 5
    ensures forall i :: 0 <= i < |events| ==> events[i] == (if i == 0 then CallStart(t) else StartStep(t))
    ensures var last := states[|events|];
      last.started && last.owner == Free && last.loops == [Top] && t in last.starts && last.starts[t] == StartDone
  {
    states := [Launch(t, 0), Launch(t, 1), Launch(t, 2), Launch(t, 3), Launch(t, 4), Launch(t, 5)];
    events := [CallStart(t), StartStep(t), StartStep(t), StartStep(t), StartStep(t)];
    assert Next(states[0], events[0]) == states[1];
    hide Launch, Enabled, StartNext;
    LaunchStep(t, 1);
    LaunchStep(t, 2);
    LaunchStep(t, 3);
    LaunchStep(t, 4);
  }

  /** A loop that leaves was told to: the context is cancelled or the stop channel closed. */
  predicate LeavesAsTold(s: State) {
    forall l :: 0 <= l < |s.loops| && (s.loops[l].Leaving? || s.loops[l].Left?) ==> s.cancelled || s.stopCloses > 0
  }

  lemma {:induction false} LeavesOnlyWhenTold(states: seq<State>, events: seq<Event>, i: nat)
    requires IsRun(states, events) && i < |states|
    ensures LeavesAsTold(states[i])
  {
    hide Enabled, Next;
    if i > 0 {
      LeavesOnlyWhenTold(states, events, i - 1);
      StepKeepsTold(states[i - 1], events[i - 1]);
    }
  }

  lemma StepKeepsTold(s: State, e: Event)
    requires LeavesAsTold(s) && Enabled(s, e)
    ensures LeavesAsTold(Next(s, e))
  {
    hide LoopEnabled;
    if e.LoopStep? {
      LoopKeepsTold(s, e.loop, e.what);
    }
  }

  lemma LoopKeepsTold(s: State, l: nat, what: LoopEvent)
    requires LeavesAsTold(s) && Enabled(s, LoopStep(l, what))
    ensures LeavesAsTold(LoopNext(s, l, what))
  {
  }

  function Turn(l: nat): (r: seq<Event>)
    ensures |r| == 5
  {
    [LoopStep(l, ComputeNext), LoopStep(l, TimerFires), LoopStep(l, LockInRun), LoopStep(l, UnlockInRun),
     LoopStep(l, EndRun)]
  }

  /** Until then every turn of the loop can lead through RunOnce to the next one. */
  lemma TurnAfterTurn(s: State, l: nat) returns (states: seq<State>)
    requires l < |s.loops| && s.loops[l] == Top && s.owner == Free
    ensures |states| == 6 && states[0] == states[5] == s
    ensures forall i :: 0 <= i < 5 ==>
      Enabled(states[i], Turn(l)[i]) && states[i + 1] == Next(states[i], Turn(l)[i])
  {
    var ready := s.(loops := s.loops[l := Select]);
    var running := s.(loops := s.loops[l := Running]);
    var locked := s.(loops := s.loops[l := RunningLocked], owner := ByLoop(l));
    states := [s, ready, running, locked, running, s];
  }

  /** A Start call that had not locked when stopped was already set. */
  predicate Late(s: State, t: nat) {
    s.stopped && (t in s.starts ==> !s.starts[t].Accepted? && !s.starts[t].Launching?)
  }

  lemma StaysLate(s: State, e: Event, t: nat)
    requires Late(s, t) && Enabled(s, e)
    ensures Late(Next(s, e), t)
  {
  }

  /** Such a call never launches a loop: it never reaches the go statement. */
  lemma {:induction false} LateStartNeverLaunches(states: seq<State>, events: seq<Event>, t: nat, i: nat, j: nat)
    requires IsRun(states, events) && i <= j < |states|
    requires states[i].stopped && (t in states[i].starts ==> states[i].starts[t].StartEntry?)
    ensures Late(states[j], t)
  {
    hide Enabled, Next;
    if i < j {
      LateStartNeverLaunches(states, events, t, i, j - 1);
      StaysLate(states[j - 1], events[j - 1], t);
    }
  }

  /** Stopped for good: there never was a loop and never will be, or it has left. */
  predicate Quiet(s: State) {
    s.stopped && (LoopLeft(s) || !s.started)
  }

  lemma QuietStaysQuiet(s: State, e: Event)
    requires Invariant(s) && Quiet(s) && Enabled(s, e)
    ensures Quiet(Next(s, e))
    ensures !(e.LoopStep? && e.what.TimerFires?)
  {
    hide MutexInvariant, ChannelsInvariant;
  }

  lemma {:induction false} QuietForever(states: seq<State>, events: seq<Event>, i: nat, j: nat)
    requires IsRun(states, events) && i <= j < |states| && Quiet(states[i])
    ensures Quiet(states[j])
  {
    hide Invariant, Enabled, Next, Quiet;
    if i < j {
      QuietForever(states, events, i, j - 1);
      RunInvariant(states, events, j - 1);
      QuietStaysQuiet(states[j - 1], events[j - 1]);
    }
  }

  /** Once the Stop call that set stopped has returned, the loop starts no RunOnce and none is in progress. */
  lemma NoRunAfterStop(states: seq<State>, events: seq<Event>, t: nat, i: nat, j: nat)
    requires IsRun(states, events) && i <= j < |states|
    requires t in states[i].stops && states[i].stops[t] == Returned
    ensures forall l :: 0 <= l < |states[j].loops| ==> states[j].loops[l].Left?
    ensures j < |events| ==> !(events[j].LoopStep? && events[j].what.TimerFires?)
  {
    hide Enabled, Next;
    RunInvariant(states, events, i);
    assert Quiet(states[i]) by {
      assert FirstPc(states[i]) == Returned;
    }
    QuietForever(states, events, i, j);
    RunInvariant(states, events, j);
    if j < |events| {
      QuietStaysQuiet(states[j], events[j]);
    }
  }

  // ---------- a waiting Stop can return ----------

  /** How far the loop, or the Start call that owes it, is from having left. */
  function ToExit(s: State): nat
    requires s.pending.Some? ==> s.pending.value in s.starts
  {
    if s.pending.Some? then (if s.starts[s.pending.value].Accepted? then 7 else 6)
    else if s.loops == [] then 0
    else
      match s.loops[0]
      case RunningLocked => 5 case Running => 4 case Top => 3 case Select => 2 case Leaving => 1 case Left => 0
  }

  /** The next statement on the way out. */
  function WayOut(s: State): Event
    requires s.pending.Some? || s.loops != []
  {
    if s.pending.Some? then StartStep(s.pending.value)
    else
      match s.loops[0]
      case RunningLocked => LoopStep(0, UnlockInRun) case Running => LoopStep(0, EndRun)
      case Top => LoopStep(0, ComputeNext) case Select => LoopStep(0, SeeStop) case _ => LoopStep(0, CloseDone)
  }

  /** The timer fires, or the RunOnce in progress takes the lock: the loop's own ways of staying. */
  predicate Lingers(e: Event) {
    e.LoopStep? && (e.what.TimerFires? || e.what.LockInRun?)
  }

  ghost predicate Waits(s: State, t: nat) {
    t in s.stops && s.stops[t].Waiting? && s.doneCloses == 0
  }

  lemma WaitingMeans(s: State, t: nat)
    requires Invariant(s) && Waits(s, t)
    ensures s.stopCloses == 1 && s.first == Some(t) && FirstPc(s).Waiting? && s.started
    ensures s.pending.Some? || (|s.loops| == 1 && !s.loops[0].Left?)
    ensures s.pending.Some? ==>
      s.pending.value in s.starts && (s.starts[s.pending.value].Accepted? || s.starts[s.pending.value].Launching?)
  {
    hide MutexInvariant;
  }

  /** While a Stop call waits in vain, the statement on the way out is enabled and brings the exit nearer. */
  lemma WayOutIsOpen(s: State, t: nat)
    requires Invariant(s) && Waits(s, t)
    ensures ToExit(s) > 0 && Enabled(s, WayOut(s)) && !Lingers(WayOut(s))
    ensures var s' := Next(s, WayOut(s));
      Invariant(s') && t in s'.stops && s'.stops[t].Waiting? && (s'.doneCloses > 0 || ToExit(s') < ToExit(s))
  {
    WaitingMeans(s, t);
    hide Invariant, FirstPc;
    StepKeepsInvariant(s, WayOut(s));
  }

  /** No other statement of any caller takes it further away, and none but a lingering one does. */
  lemma OnlyLingeringDelays(s: State, e: Event, t: nat)
    requires Invariant(s) && Waits(s, t) && Enabled(s, e) && !Lingers(e)
    ensures Invariant(Next(s, e)) && ToExit(Next(s, e)) <= ToExit(s)
  {
    hide Invariant, ToExit, FirstPc, StartNext, StopNext, LoopNext;
    WaitingMeans(s, t);
    StepKeepsInvariant(s, e);
    match e {
      case StartStep(a) => StartDoesNotDelay(s, a);
      case LoopStep(l, what) => LoopDoesNotDelay(s, l, what);
      case _ => OthersDoNotDelay(s, e);
    }
  }

  lemma StartDoesNotDelay(s: State, a: nat)
    requires Invariant(s) && Enabled(s, StartStep(a)) && s.started
    ensures s.pending.Some? ==> s.pending.value in s.starts
    ensures var s' := StartNext(s, a);
      (s'.pending.Some? ==> s'.pending.value in s'.starts) && ToExit(s') <= ToExit(s)
  {
    assert s.starts[a].Accepted? || s.starts[a].Launching? <==> s.pending == Some(a);
    assert (s.pending.Some? ==> s.pending.value in s.starts && s.loops == []) && |s.loops| <= 1;
    hide Invariant;
  }

  lemma LoopDoesNotDelay(s: State, l: nat, what: LoopEvent)
    requires Invariant(s) && Enabled(s, LoopStep(l, what)) && !Lingers(LoopStep(l, what))
    ensures s.pending.None? && LoopNext(s, l, what).pending.None?
    ensures ToExit(LoopNext(s, l, what)) <= ToExit(s)
  {
    assert |s.loops| <= 1 && (s.pending.Some? ==> |s.loops| == 0);
    hide Invariant;
  }

  lemma OthersDoNotDelay(s: State, e: Event)
    requires Invariant(s) && Enabled(s, e) && !e.StartStep? && !e.LoopStep?
    ensures s.pending.Some? ==> s.pending.value in s.starts
    ensures var s' := Next(s, e);
      (s'.pending.Some? ==> s'.pending.value in s'.starts) && ToExit(s') <= ToExit(s)
  {
    assert s.pending.Some? ==> s.pending.value in s.starts;
    assert s.pending.Some? ==>
      s.starts[s.pending.value].Accepted? || s.starts[s.pending.value].Launching?;
    hide Invariant, StopNext;
  }

  /** From every state of a run in which a Stop call waits, some continuation lets it return. */
  lemma {:induction false} WaitingStopCanReturn(s: State, t: nat) returns (states: seq<State>, events: seq<Event>)
    requires Invariant(s) && t in s.stops && s.stops[t].Waiting?
    ensures |states| == |events| + 1 && states[0] == s
    ensures forall i :: 0 <= i < |events| ==>
      Enabled(states[i], events[i]) && states[i + 1] == Next(states[i], events[i])
    ensures t in states[|events|].stops && states[|events|].stops[t].Returned?
    ensures |events| <= ToExit(s) + 1
    decreases s.doneCloses == 0, ToExit(s)
  {
    if s.doneCloses > 0 {
      assert Enabled(s, StopStep(t));
      states, events := [s, Next(s, StopStep(t))], [StopStep(t)];
    } else {
      WayOutIsOpen(s, t);
      var e := WayOut(s);
      var rest, later := WaitingStopCanReturn(Next(s, e), t);
      hide Invariant, Enabled, Next, ToExit, WayOut;
      states, events := [s] + rest, [e] + later;
      forall i | 0 <= i < |events|
        ensures Enabled(states[i], events[i]) && states[i + 1] == Next(states[i], events[i])
      {
        if i > 0 {
          assert states[i] == rest[i - 1] && events[i] == later[i - 1] && states[i + 1] == rest[i];
        }
      }
    }
  }
}

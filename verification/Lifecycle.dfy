/** The engine's lifecycle as a step machine: any number of concurrent `start` and `stop` calls, a
    watchdog and a netstack task for every run, and `drop`. Each step is one atomic access: the
    compare-exchange or store on the flag, or one critical section of a mutex. */
module Lifecycle {
  import opened Bytes

  type CallId = nat
  type RunId = nat

  /** Where a value that exactly one party owns is: with a call, in the engine's slot, with `drop`. */
  datatype Place = AtCall(call: CallId) | AtSlot | AtDrop | Nowhere

  /** Who takes an adapter for teardown. */
  datatype Party = Starter | Watchdog | Stopper(call: CallId) | Dropper

  datatype Adapter = Local | InCell | HeldBy(party: Party) | Gone

  datatype WatchdogPc = NotSpawned | Waiting | Holding | Joining | Finished | Failed

  /** One run: its adapter cell, its two tasks, whether its netstack was told to stop, where its
      `RunState` is, and who took the adapter. */
  datatype Run = Run(
    adapter: Adapter, watchdog: WatchdogPc, netstackEnded: bool, signalled: bool, home: Place, takers: seq<Party>)

  datatype Outcome = StartOk | AlreadyRunning | StartErr | Unwound | NotRunning | StopOk(run: RunId) | Cancelled

  datatype CallPc =
    | StartEntry | StartInner | StartLocal(run: RunId) | StartBuilt(run: RunId) | StartFailed
    | StopEntry | StopTaken(run: RunId) | StopCleared(run: RunId) | StopWaiting(run: RunId)
    | StopFallback(run: RunId) | StopHolding(run: RunId) | StopEnding(run: RunId)
    | Returned(outcome: Outcome)

  datatype DropPc =
    | NotDropped | DropTaken(run: RunId) | DropCleared(run: RunId) | DropSignalled(run: RunId)
    | DropHolding(run: RunId) | DropAborting(run: RunId) | Dropped(last: Option<RunId>)

  /** `holder` records which party the running flag currently stands for. */
  datatype State = State(
    flag: bool, slot: Option<RunId>, runs: map<RunId, Run>, calls: map<CallId, CallPc>, drop: DropPc, holder: Place)

  datatype StartStep =
    | EnterStart | CompareExchange | CreateFails | Create(run: RunId) | SessionFails | Unwind | Spawn | Publish
    | ClearAfterFailure

  datatype StopStep =
    | EnterStop | TakeRun | ClearFlag | Signal | Join | FallbackTake | FallbackRelease | ReturnOk | Cancel

  datatype TaskStep = NetstackStops | NetstackEnds | WatchdogTakes | WatchdogReleases | WatchdogFinishes | WatchdogFails

  datatype DropStep = DropTakes | DropClears | DropSignals | DropTakesAdapter | DropReleases | DropFinishes

  /** One step of a `start` call, of a `stop` call, of a run's tasks, or of `drop`. */
  datatype Action =
    | Start(c: CallId, start: StartStep) | Stop(d: CallId, stop: StopStep) | Task(r: RunId, task: TaskStep)
    | Drop(drop: DropStep)

  const Init := State(false, None, map[], map[], NotDropped, Nowhere)

  // ---- Steps ----

  predicate Idle(s: State) { forall c :: c in s.calls ==> s.calls[c].Returned? }

  /** The run a call works for is one the engine knows. */
  predicate AtRun(s: State, c: CallId) {
    c in s.calls && HasRun(s.calls[c]) && s.calls[c].run in s.runs
  }

  predicate StartEnabled(s: State, c: CallId, a: StartStep) {
    match a
    case EnterStart => c !in s.calls && s.drop.NotDropped?
    case CompareExchange => c in s.calls && s.calls[c].StartEntry?
    case CreateFails => c in s.calls && s.calls[c].StartInner?
    case Create(r) => c in s.calls && s.calls[c].StartInner? && r !in s.runs
    case SessionFails => AtRun(s, c) && s.calls[c].StartLocal?
    case Unwind => c in s.calls && (s.calls[c].StartInner? || (AtRun(s, c) && s.calls[c].StartLocal?))
    case Spawn => AtRun(s, c) && s.calls[c].StartLocal?
    case Publish => AtRun(s, c) && s.calls[c].StartBuilt?
    case ClearAfterFailure => c in s.calls && s.calls[c].StartFailed?
  }

  predicate StopEnabled(s: State, c: CallId, a: StopStep) {
    match a
    case EnterStop => c !in s.calls && s.drop.NotDropped?
    case TakeRun => c in s.calls && s.calls[c].StopEntry? && (s.slot.Some? ==> s.slot.value in s.runs)
    case ClearFlag => AtRun(s, c) && s.calls[c].StopTaken?
    case Signal => AtRun(s, c) && s.calls[c].StopCleared?
    case Join => AtRun(s, c) && s.calls[c].StopWaiting? && Ended(s.runs[s.calls[c].run].watchdog)
    case FallbackTake => AtRun(s, c) && s.calls[c].StopFallback?
    case FallbackRelease => AtRun(s, c) && s.calls[c].StopHolding?
    case ReturnOk => AtRun(s, c) && s.calls[c].StopEnding?
    case Cancel => AtRun(s, c) && s.calls[c].StopWaiting?
  }

  predicate TaskEnabled(s: State, r: RunId, a: TaskStep) {
    && r in s.runs
    && var run := s.runs[r];
       match a
       case NetstackStops => !run.watchdog.NotSpawned? && !run.netstackEnded && run.signalled
       case NetstackEnds => !run.watchdog.NotSpawned? && !run.netstackEnded
       case WatchdogTakes => run.watchdog.Waiting? && run.netstackEnded
       case WatchdogReleases => run.watchdog.Holding?
       case WatchdogFinishes => run.watchdog.Joining?
       case WatchdogFails => run.watchdog.Waiting? || run.watchdog.Holding? || run.watchdog.Joining?
  }

  predicate DropEnabled(s: State, a: DropStep) {
    match a
    case DropTakes => s.drop.NotDropped? && Idle(s) && (s.slot.Some? ==> s.slot.value in s.runs)
    case DropClears => s.drop.DropTaken? && s.drop.run in s.runs
    case DropSignals => s.drop.DropCleared? && s.drop.run in s.runs
    case DropTakesAdapter => s.drop.DropSignalled? && s.drop.run in s.runs
    case DropReleases => s.drop.DropHolding? && s.drop.run in s.runs
    case DropFinishes => s.drop.DropAborting? && s.drop.run in s.runs
  }

  predicate Enabled(s: State, a: Action) {
    match a
    case Start(c, b) => StartEnabled(s, c, b)
    case Stop(c, b) => StopEnabled(s, c, b)
    case Task(r, b) => TaskEnabled(s, r, b)
    case Drop(b) => DropEnabled(s, b)
  }

  function Goto(s: State, c: CallId, pc: CallPc): State { s.(calls := s.calls[c := pc]) }

  function Put(s: State, r: RunId, run: Run): State { s.(runs := s.runs[r := run]) }

  function Taken(run: Run, p: Party): Run { run.(adapter := HeldBy(p), takers := run.takers + [p]) }

  predicate Ended(w: WatchdogPc) { w.Finished? || w.Failed? }

  /** The adapter cell is shared by the `RunState` and the watchdog; when the second of the two lets
      go of a cell that still holds the adapter, dropping the cell tears the adapter down. */
  function LetGo(run: Run, p: Party): Run {
    if run.adapter.InCell? && run.home.Nowhere? && Ended(run.watchdog)
    then run.(adapter := Gone, takers := run.takers + [p]) else run
  }

  /** Dropping the `RunState` drops the sender of the stop signal, which wakes the netstack just the same. */
  function Released(run: Run): Run { run.(home := Nowhere, signalled := true) }

  function DoStart(s: State, c: CallId, a: StartStep): State
    requires StartEnabled(s, c, a)
  {
    match a
    case EnterStart => Goto(s, c, StartEntry)
    case CompareExchange =>
      if s.flag then Goto(s, c, Returned(AlreadyRunning))
      else Goto(s, c, StartInner).(flag := true, holder := AtCall(c))
    case CreateFails => Goto(s, c, StartFailed)
    case Create(r) => Put(Goto(s, c, StartLocal(r)), r, Run(Local, NotSpawned, false, false, AtCall(c), []))
    case SessionFails =>
      var r := s.calls[c].run;
      Put(Goto(s, c, StartFailed), r, Taken(s.runs[r], Starter).(adapter := Gone, home := Nowhere))
    case Unwind =>
      // A panic in a callback or in spawning drops the adapter; nothing clears the flag.
      if s.calls[c].StartInner? then Goto(s, c, Returned(Unwound))
      else
        var r := s.calls[c].run;
        Put(Goto(s, c, Returned(Unwound)), r, Taken(s.runs[r], Starter).(adapter := Gone, home := Nowhere))
    case Spawn =>
      var r := s.calls[c].run;
      Put(Goto(s, c, StartBuilt(r)), r, s.runs[r].(adapter := InCell, watchdog := Waiting))
    case Publish =>
      var r := s.calls[c].run;
      Put(Goto(s, c, Returned(StartOk)), r, s.runs[r].(home := AtSlot)).(slot := Some(r), holder := AtSlot)
    case ClearAfterFailure => Goto(s, c, Returned(StartErr)).(flag := false, holder := Nowhere)
  }

  function DoStop(s: State, c: CallId, a: StopStep): State
    requires StopEnabled(s, c, a)
  {
    match a
    case EnterStop => Goto(s, c, StopEntry)
    case TakeRun =>
      if s.slot.None? then Goto(s, c, Returned(NotRunning))
      else
        var r := s.slot.value;
        Put(Goto(s, c, StopTaken(r)), r, s.runs[r].(home := AtCall(c))).(slot := None, holder := AtCall(c))
    case ClearFlag => Goto(s, c, StopCleared(s.calls[c].run)).(flag := false, holder := Nowhere)
    case Signal =>
      var r := s.calls[c].run;
      Put(Goto(s, c, StopWaiting(r)), r, s.runs[r].(signalled := true))
    case Join =>
      var r := s.calls[c].run;
      Goto(s, c, if s.runs[r].watchdog.Finished? then StopEnding(r) else StopFallback(r))
    case FallbackTake =>
      var r := s.calls[c].run;
      if s.runs[r].adapter.InCell? then Put(Goto(s, c, StopHolding(r)), r, Taken(s.runs[r], Stopper(c)))
      else Goto(s, c, StopEnding(r))
    case FallbackRelease =>
      var r := s.calls[c].run;
      Put(Goto(s, c, StopEnding(r)), r, s.runs[r].(adapter := Gone))
    case ReturnOk =>
      var r := s.calls[c].run;
      Put(Goto(s, c, Returned(StopOk(r))), r, LetGo(Released(s.runs[r]), Stopper(c)))
    case Cancel =>
      var r := s.calls[c].run;
      Put(Goto(s, c, Returned(Cancelled)), r, LetGo(Released(s.runs[r]), Stopper(c)))
  }

  function DoTask(run: Run, a: TaskStep): Run {
    match a
    case NetstackStops => run.(netstackEnded := true)
    case NetstackEnds => run.(netstackEnded := true)
    case WatchdogTakes =>
      if run.adapter.InCell? then Taken(run, Watchdog).(watchdog := Holding) else run.(watchdog := Joining)
    case WatchdogReleases => run.(adapter := Gone, watchdog := Joining)
    case WatchdogFinishes => LetGo(run.(watchdog := Finished), Watchdog)
    case WatchdogFails =>
      // Aborted while awaiting, or a panic; unwinding drops an adapter it was holding.
      LetGo(if run.watchdog.Holding? then run.(adapter := Gone, watchdog := Failed) else run.(watchdog := Failed), Watchdog)
  }

  function DoDrop(s: State, a: DropStep): State
    requires DropEnabled(s, a)
  {
    if a.DropTakes? then
      if s.slot.None? then s.(drop := Dropped(None))
      else
        var r := s.slot.value;
        Put(s, r, s.runs[r].(home := AtDrop)).(slot := None, drop := DropTaken(r), holder := AtDrop)
    else
      var r := s.drop.run;
      match a
      case DropClears => s.(flag := false, drop := DropCleared(r), holder := Nowhere)
      case DropSignals => Put(s, r, s.runs[r].(signalled := true)).(drop := DropSignalled(r))
      case DropTakesAdapter =>
        if s.runs[r].adapter.InCell? then Put(s, r, Taken(s.runs[r], Dropper)).(drop := DropHolding(r))
        else s.(drop := DropAborting(r))
      case DropReleases => Put(s, r, s.runs[r].(adapter := Gone)).(drop := DropAborting(r))
      case DropFinishes => Put(s, r, LetGo(Released(s.runs[r]), Dropper)).(drop := Dropped(Some(r)))
  }

  function Do(s: State, a: Action): State
    requires Enabled(s, a)
  {
    match a
    case Start(c, b) => DoStart(s, c, b)
    case Stop(c, b) => DoStop(s, c, b)
    case Task(r, b) => Put(s, r, DoTask(s.runs[r], b))
    case Drop(b) => DoDrop(s, b)
  }

  // ---- Invariants ----

  /** A starter past its compare-exchange, one that unwound from there, or a stopper between taking the
      run and clearing the flag. */
  predicate Critical(pc: CallPc) {
    pc.StartInner? || pc.StartLocal? || pc.StartBuilt? || pc.StartFailed? || pc == Returned(Unwound) || pc.StopTaken?
  }

  /** The call has the adapter or the `RunState` of its run. */
  predicate HasRun(pc: CallPc) {
    pc.StartLocal? || pc.StartBuilt? || pc.StopTaken? || pc.StopCleared? || pc.StopWaiting?
    || pc.StopFallback? || pc.StopHolding? || pc.StopEnding?
  }

  /** A stopper that has told the netstack to stop. */
  predicate PastSignal(pc: CallPc) { pc.StopWaiting? || pc.StopFallback? || pc.StopHolding? || pc.StopEnding? }

  predicate DropPastSignal(d: DropPc) { d.DropSignalled? || d.DropHolding? || d.DropAborting? }

  predicate DropHasRun(d: DropPc) { !d.NotDropped? && !d.Dropped? }

  /** The flag stands for exactly one party, and each `RunState` is where its run says it is. */
  ghost predicate EngineInv(s: State) {
    && (s.flag <==> s.holder != Nowhere)
    && (s.slot.Some? <==> s.holder == AtSlot)
    && (s.drop.DropTaken? <==> s.holder == AtDrop)
    && (s.holder.AtCall? ==> s.holder.call in s.calls)
    && (s.slot.Some? ==> s.slot.value in s.runs && s.runs[s.slot.value].home == AtSlot)
    && (DropHasRun(s.drop) ==> s.drop.run in s.runs && s.runs[s.drop.run].home == AtDrop)
    && match s.drop
       case DropHolding(r) => r in s.runs && s.runs[r].adapter == HeldBy(Dropper)
       case DropAborting(r) => r in s.runs && (s.runs[r].adapter.Gone? || s.runs[r].adapter == HeldBy(Watchdog))
       case Dropped(Some(r)) => r in s.runs && (s.runs[r].adapter.Gone? || s.runs[r].adapter == HeldBy(Watchdog))
       case _ => true
  }

  ghost predicate CallInv(s: State, c: CallId)
    requires c in s.calls
  {
    var pc := s.calls[c];
    && (Critical(pc) <==> s.holder == AtCall(c))
    && (HasRun(pc) ==> pc.run in s.runs && s.runs[pc.run].home == AtCall(c))
    && match pc
       case StartLocal(r) => s.runs[r].adapter.Local?
       case StopFallback(r) => s.runs[r].watchdog.Failed?
       case StopHolding(r) => s.runs[r].adapter == HeldBy(Stopper(c))
       case StopEnding(r) => s.runs[r].adapter.Gone?
       case Returned(StopOk(r)) => r in s.runs && s.runs[r].adapter.Gone?
       case _ => true
  }

  /** What is known of a run from where its parties stand. */
  ghost predicate RunInv(s: State, r: RunId)
    requires r in s.runs
  {
    var run := s.runs[r];
    && match run.home {
         case AtCall(c) =>
           c in s.calls && HasRun(s.calls[c]) && s.calls[c].run == r && (run.signalled <==> PastSignal(s.calls[c]))
         case AtSlot => s.slot == Some(r) && !run.signalled
         case AtDrop => DropHasRun(s.drop) && s.drop.run == r && (run.signalled <==> DropPastSignal(s.drop))
         case Nowhere => run.adapter.Gone? || run.signalled
       }
    && (!run.netstackEnded && (run.home == AtSlot || (run.home.AtCall? && s.calls[run.home.call].StartBuilt?))
        ==> run.adapter.InCell?)
    && |run.takers| == (if run.adapter.Local? || run.adapter.InCell? then 0 else 1)
    && (run.watchdog.Holding? <==> run.adapter == HeldBy(Watchdog))
    && match run.adapter {
         case Local => run.watchdog.NotSpawned? && run.home.AtCall? && s.calls[run.home.call].StartLocal?
         case InCell => run.watchdog.Waiting? || (run.watchdog.Failed? && run.home != Nowhere)
         case Gone => true
         case HeldBy(Watchdog) => true
         case HeldBy(Starter) => false
         case HeldBy(Stopper(c)) => run.home == AtCall(c) && s.calls[c].StopHolding?
         case HeldBy(Dropper) => run.home == AtDrop && s.drop.DropHolding?
       }
  }

  ghost predicate Inv(s: State) {
    && EngineInv(s)
    && (forall c :: c in s.calls ==> CallInv(s, c))
    && (forall r :: r in s.runs ==> RunInv(s, r))
  }

  // ---- Every step keeps them ----

  /** The invariants of the parties one step can involve. */
  lemma KnownCall(s: State, c: CallId)
    requires Inv(s)
    ensures EngineInv(s)
    ensures c in s.calls ==> CallInv(s, c) && (HasRun(s.calls[c]) ==> RunInv(s, s.calls[c].run))
  {
  }

  lemma KnownRun(s: State, r: RunId)
    requires Inv(s)
    ensures EngineInv(s)
    ensures r in s.runs ==> RunInv(s, r) && (s.runs[r].home.AtCall? ==> CallInv(s, s.runs[r].home.call))
  {
  }

  lemma KnownOwner(s: State)
    requires Inv(s)
    ensures EngineInv(s)
    ensures s.slot.Some? ==> RunInv(s, s.slot.value)
    ensures DropHasRun(s.drop) ==> RunInv(s, s.drop.run)
  {
  }

  lemma StartKeepsCall(s: State, c: CallId, a: StartStep, d: CallId)
    requires Inv(s) && StartEnabled(s, c, a) && d in DoStart(s, c, a).calls
    ensures CallInv(DoStart(s, c, a), d)
  {
    hide Inv;
    KnownCall(s, c);
    KnownCall(s, d);
  }

  lemma StartKeepsRun(s: State, c: CallId, a: StartStep, q: RunId)
    requires Inv(s) && StartEnabled(s, c, a) && q in DoStart(s, c, a).runs
    ensures RunInv(DoStart(s, c, a), q)
  {
    hide Inv;
    KnownCall(s, c);
    KnownRun(s, q);
  }

  lemma StartKeepsEngine(s: State, c: CallId, a: StartStep)
    requires Inv(s) && StartEnabled(s, c, a)
    ensures EngineInv(DoStart(s, c, a))
  {
    hide Inv;
    KnownCall(s, c);
  }

  /** The steps of `stop` up to its await. */
  predicate BeforeAwait(a: StopStep) { a.EnterStop? || a.TakeRun? || a.ClearFlag? || a.Signal? }

  lemma StopKeepsCall(s: State, c: CallId, a: StopStep, d: CallId)
    requires Inv(s) && StopEnabled(s, c, a) && d in DoStop(s, c, a).calls
    ensures CallInv(DoStop(s, c, a), d)
  {
    hide Inv, CallInv, DoStop, StopEnabled;
    if BeforeAwait(a) {
      EarlyStopKeepsCall(s, c, a, d);
    } else {
      LateStopKeepsCall(s, c, a, d);
    }
  }

  lemma EarlyStopKeepsCall(s: State, c: CallId, a: StopStep, d: CallId)
    requires Inv(s) && StopEnabled(s, c, a) && d in DoStop(s, c, a).calls && BeforeAwait(a)
    ensures CallInv(DoStop(s, c, a), d)
  {
    hide Inv, LetGo, Taken;
    KnownCall(s, c);
    KnownCall(s, d);
  }

  lemma LateStopKeepsCall(s: State, c: CallId, a: StopStep, d: CallId)
    requires Inv(s) && StopEnabled(s, c, a) && d in DoStop(s, c, a).calls && !BeforeAwait(a)
    ensures CallInv(DoStop(s, c, a), d)
  {
    hide Inv;
    KnownCall(s, c);
    KnownCall(s, d);
  }

  lemma StopKeepsRun(s: State, c: CallId, a: StopStep, q: RunId)
    requires Inv(s) && StopEnabled(s, c, a) && q in DoStop(s, c, a).runs
    ensures RunInv(DoStop(s, c, a), q)
  {
    hide Inv, RunInv, DoStop, StopEnabled;
    if BeforeAwait(a) {
      EarlyStopKeepsRun(s, c, a, q);
    } else {
      LateStopKeepsRun(s, c, a, q);
    }
  }

  lemma EarlyStopKeepsRun(s: State, c: CallId, a: StopStep, q: RunId)
    requires Inv(s) && StopEnabled(s, c, a) && q in DoStop(s, c, a).runs && BeforeAwait(a)
    ensures RunInv(DoStop(s, c, a), q)
  {
    hide Inv, LetGo, Taken;
    KnownCall(s, c);
    KnownRun(s, q);
  }

  lemma LateStopKeepsRun(s: State, c: CallId, a: StopStep, q: RunId)
    requires Inv(s) && StopEnabled(s, c, a) && q in DoStop(s, c, a).runs && !BeforeAwait(a)
    ensures RunInv(DoStop(s, c, a), q)
  {
    hide Inv;
    KnownCall(s, c);
    KnownRun(s, q);
  }

  lemma StopKeepsEngine(s: State, c: CallId, a: StopStep)
    requires Inv(s) && StopEnabled(s, c, a)
    ensures EngineInv(DoStop(s, c, a))
  {
    hide Inv;
    KnownCall(s, c);
    KnownOwner(s);
  }

  lemma TaskKeepsCall(s: State, r: RunId, a: TaskStep, d: CallId)
    requires Inv(s) && TaskEnabled(s, r, a) && d in Put(s, r, DoTask(s.runs[r], a)).calls
    ensures CallInv(Put(s, r, DoTask(s.runs[r], a)), d)
  {
    hide Inv;
    KnownRun(s, r);
    KnownCall(s, d);
  }

  lemma TaskKeepsRun(s: State, r: RunId, a: TaskStep, q: RunId)
    requires Inv(s) && TaskEnabled(s, r, a) && q in Put(s, r, DoTask(s.runs[r], a)).runs
    ensures RunInv(Put(s, r, DoTask(s.runs[r], a)), q)
  {
    hide Inv;
    KnownRun(s, r);
    KnownRun(s, q);
  }

  lemma TaskKeepsEngine(s: State, r: RunId, a: TaskStep)
    requires Inv(s) && TaskEnabled(s, r, a)
    ensures EngineInv(Put(s, r, DoTask(s.runs[r], a)))
  {
    hide Inv;
    KnownRun(s, r);
  }

  lemma DropKeepsCall(s: State, a: DropStep, d: CallId)
    requires Inv(s) && DropEnabled(s, a) && d in DoDrop(s, a).calls
    ensures CallInv(DoDrop(s, a), d)
  {
    hide Inv;
    KnownOwner(s);
    KnownCall(s, d);
  }

  lemma DropKeepsRun(s: State, a: DropStep, q: RunId)
    requires Inv(s) && DropEnabled(s, a) && q in DoDrop(s, a).runs
    ensures RunInv(DoDrop(s, a), q)
  {
    hide Inv;
    KnownOwner(s);
    KnownRun(s, q);
  }

  lemma DropKeepsEngine(s: State, a: DropStep)
    requires Inv(s) && DropEnabled(s, a)
    ensures EngineInv(DoDrop(s, a))
  {
    hide Inv;
    KnownOwner(s);
  }

  lemma StepKeepsInv(s: State, a: Action)
    requires Inv(s) && Enabled(s, a)
    ensures Inv(Do(s, a))
  {
    hide EngineInv, CallInv, RunInv, DoStart, DoStop, DoTask, DoDrop, Enabled;
    var s' := Do(s, a);
    forall c | c in s'.calls ensures CallInv(s', c) {
      StepKeepsCall(s, a, c);
    }
    forall r | r in s'.runs ensures RunInv(s', r) {
      StepKeepsRun(s, a, r);
    }
    StepKeepsEngine(s, a);
  }

  lemma StepKeepsCall(s: State, a: Action, c: CallId)
    requires Inv(s) && Enabled(s, a) && c in Do(s, a).calls
    ensures CallInv(Do(s, a), c)
  {
    hide EngineInv, CallInv, RunInv, Inv, DoStart, DoStop, DoTask, DoDrop, StartEnabled, StopEnabled, TaskEnabled, DropEnabled;
    match a {
      case Start(d, b) => StartKeepsCall(s, d, b, c);
      case Stop(d, b) => StopKeepsCall(s, d, b, c);
      case Task(q, b) => TaskKeepsCall(s, q, b, c);
      case Drop(b) => DropKeepsCall(s, b, c);
    }
  }

  lemma StepKeepsRun(s: State, a: Action, r: RunId)
    requires Inv(s) && Enabled(s, a) && r in Do(s, a).runs
    ensures RunInv(Do(s, a), r)
  {
    hide EngineInv, CallInv, RunInv, Inv, DoStart, DoStop, DoTask, DoDrop, StartEnabled, StopEnabled, TaskEnabled, DropEnabled;
    match a {
      case Start(d, b) => StartKeepsRun(s, d, b, r);
      case Stop(d, b) => StopKeepsRun(s, d, b, r);
      case Task(q, b) => TaskKeepsRun(s, q, b, r);
      case Drop(b) => DropKeepsRun(s, b, r);
    }
  }

  lemma StepKeepsEngine(s: State, a: Action)
    requires Inv(s) && Enabled(s, a)
    ensures EngineInv(Do(s, a))
  {
    hide EngineInv, CallInv, RunInv, Inv, DoStart, DoStop, DoTask, DoDrop, StartEnabled, StopEnabled, TaskEnabled, DropEnabled;
    match a {
      case Start(d, b) => StartKeepsEngine(s, d, b);
      case Stop(d, b) => StopKeepsEngine(s, d, b);
      case Task(q, b) => TaskKeepsEngine(s, q, b);
      case Drop(b) => DropKeepsEngine(s, b);
    }
  }

  // ---- Whole runs of the engine ----

  /** `t` is the engine's history under the interleaving `acts`. */
  ghost predicate History(t: seq<State>, acts: seq<Action>) {
    && |t| == |acts| + 1 && t[0] == Init
    && forall i :: 0 <= i < |acts| ==> Enabled(t[i], acts[i]) && t[i + 1] == Do(t[i], acts[i])
  }

  lemma {:induction false} InvAlways(t: seq<State>, acts: seq<Action>, i: nat)
    requires History(t, acts) && i < |t|
    ensures Inv(t[i])
  {
    hide EngineInv, CallInv, RunInv, Do, Enabled;
    if i == 0 {
      InvAtStart();
    } else {
      InvAlways(t, acts, i - 1);
      StepKeepsInv(t[i - 1], acts[i - 1]);
    }
  }

  lemma InvAtStart()
    ensures Inv(Init)
  {
  }

  /** The running flag is held on behalf of this party: a starter past its compare-exchange (for good, if it
      unwound there), the published run, or a stopper (or `drop`) between taking the run and clearing the flag. */
  ghost predicate HoldsFlag(s: State, p: Place) {
    match p
    case AtCall(c) => c in s.calls && Critical(s.calls[c])
    case AtSlot => s.slot.Some?
    case AtDrop => s.drop.DropTaken?
    case Nowhere => false
  }

  /** Under every interleaving the flag is set exactly when one party holds it, and never two. */
  lemma FlagHasOneHolder(t: seq<State>, acts: seq<Action>, i: nat)
    requires History(t, acts) && i < |t|
    ensures t[i].flag <==> exists p :: HoldsFlag(t[i], p)
    ensures forall p, q :: HoldsFlag(t[i], p) && HoldsFlag(t[i], q) ==> p == q
  {
    hide RunInv;
    InvAlways(t, acts, i);
    forall p ensures HoldsFlag(t[i], p) <==> p != Nowhere && p == t[i].holder {
      if p.AtCall? && p.call in t[i].calls {
        assert CallInv(t[i], p.call);
      }
      if t[i].holder.AtCall? {
        assert CallInv(t[i], t[i].holder.call);
      }
    }
    assert t[i].flag ==> HoldsFlag(t[i], t[i].holder);
  }

  /** Publishing never overwrites a live run. */
  lemma PublishFindsEmptySlot(t: seq<State>, acts: seq<Action>, i: nat)
    requires History(t, acts) && i < |acts| && acts[i].Start? && acts[i].start.Publish?
    ensures t[i].slot == None
  {
    hide Inv, RunInv, CallInv;
    FlagHasOneHolder(t, acts, i);
    assert Enabled(t[i], acts[i]);
    assert HoldsFlag(t[i], AtCall(acts[i].c)) && AtCall(acts[i].c) != AtSlot;
    assert !HoldsFlag(t[i], AtSlot);
  }

  /** Every adapter that was taken down, or is being, was taken by exactly one party. */
  lemma AdapterTakenOnce(t: seq<State>, acts: seq<Action>, i: nat, r: RunId)
    requires History(t, acts) && i < |t| && r in t[i].runs
    ensures |t[i].runs[r].takers| == if t[i].runs[r].adapter.Gone? || t[i].runs[r].adapter.HeldBy? then 1 else 0
  {
    InvAlways(t, acts, i);
    assert RunInv(t[i], r);
  }

  /** When `stop` returns Ok for a run, the adapter of that run is gone, for good. */
  lemma StopOkMeansGone(t: seq<State>, acts: seq<Action>, i: nat, j: nat, c: CallId, r: RunId)
    requires History(t, acts) && i <= j < |t| && c in t[i].calls && t[i].calls[c] == Returned(StopOk(r))
    ensures r in t[j].runs && t[j].runs[r].adapter.Gone?
  {
    hide EngineInv, RunInv;
    InvAlways(t, acts, i);
    assert CallInv(t[i], c);
    GoneForGood(t, acts, i, j, r);
  }

  lemma {:induction false} GoneForGood(t: seq<State>, acts: seq<Action>, i: nat, j: nat, r: RunId)
    requires History(t, acts) && i <= j < |t| && r in t[i].runs && t[i].runs[r].adapter.Gone?
    ensures r in t[j].runs && t[j].runs[r].adapter.Gone?
    decreases j - i
  {
    hide RunInv, EngineInv, CallInv, Do, Enabled, Inv;
    if i < j {
      InvAlways(t, acts, i);
      StepMovesForward(t[i], acts[i], r);
      GoneForGood(t, acts, i + 1, j, r);
    }
  }

  /** After `drop`, the adapter of the run it took is gone, or the watchdog is in the middle of
      releasing it: there every step the watchdog can take, abortion included, releases it. */
  lemma DropMeansGoneOrReleasing(t: seq<State>, acts: seq<Action>, i: nat, r: RunId)
    requires History(t, acts) && i < |t| && t[i].drop == Dropped(Some(r))
    ensures r in t[i].runs
    ensures t[i].runs[r].adapter.Gone? || (t[i].runs[r].adapter == HeldBy(Watchdog) && t[i].runs[r].watchdog.Holding?)
    ensures t[i].runs[r].watchdog.Holding? ==>
              forall a :: TaskEnabled(t[i], r, a) && !a.NetstackStops? && !a.NetstackEnds? ==>
                DoTask(t[i].runs[r], a).adapter.Gone?
  {
    InvAlways(t, acts, i);
    assert RunInv(t[i], r);
  }

  /** No adapter outlives its owners: once the `RunState` is dropped and the watchdog has ended,
      by whatever path, the adapter is gone. */
  lemma NothingLeaks(t: seq<State>, acts: seq<Action>, i: nat, r: RunId)
    requires History(t, acts) && i < |t| && r in t[i].runs
    requires t[i].runs[r].home == Nowhere && Ended(t[i].runs[r].watchdog)
    ensures t[i].runs[r].adapter.Gone?
  {
    InvAlways(t, acts, i);
    assert RunInv(t[i], r);
  }

  // ---- Teardown makes progress ----

  function HomeRank(s: State, p: Place): nat {
    match p
    case AtSlot => 9
    case Nowhere => 4
    case AtCall(c) =>
      if c !in s.calls then 4
      else
        (match s.calls[c]
         case StartBuilt(_) => 10
         case StopTaken(_) => 8
         case StopCleared(_) => 7
         case StopWaiting(_) => 6
         case StopFallback(_) => 5
         case _ => 4)
    case AtDrop =>
      match s.drop
      case DropTaken(_) => 8
      case DropCleared(_) => 7
      case DropSignalled(_) => 6
      case _ => 4
  }

  /** How far a run's adapter is from being gone. */
  function Rank(s: State, r: RunId): nat
    requires r in s.runs
  {
    var run := s.runs[r];
    match run.adapter
    case Gone => 0
    case HeldBy(_) => 1
    case Local => 20
    case InCell =>
      HomeRank(s, run.home) + if !run.watchdog.Waiting? then 0 else if run.netstackEnded then 1 else 2
  }

  /** A stopper or `drop` took the run, or its `RunState` is dropped. */
  predicate GivenUp(s: State, r: RunId)
    requires r in s.runs
  {
    match s.runs[r].home
    case AtCall(c) => c in s.calls && !s.calls[c].StartLocal? && !s.calls[c].StartBuilt?
    case AtSlot => false
    case AtDrop => true
    case Nowhere => true
  }

  /** The step that brings the adapter of a given-up run closer to being gone. The netstack is only relied
      on to end once it was told to. */
  function NextFor(s: State, r: RunId): Action
    requires r in s.runs
  {
    var run := s.runs[r];
    var awaited := Task(r, if run.netstackEnded then WatchdogTakes else NetstackStops);
    if run.adapter == HeldBy(Watchdog) then Task(r, WatchdogReleases)
    else
      match run.home
      case AtCall(c) =>
        if c !in s.calls then awaited
        else
          (match s.calls[c]
           case StopTaken(_) => Stop(c, ClearFlag)
           case StopCleared(_) => Stop(c, Signal)
           case StopFallback(_) => Stop(c, FallbackTake)
           case StopHolding(_) => Stop(c, FallbackRelease)
           case _ => if run.watchdog.Failed? then Stop(c, Join) else awaited)
      case AtDrop =>
        (match s.drop
         case DropTaken(_) => Drop(DropClears)
         case DropCleared(_) => Drop(DropSignals)
         case DropHolding(_) => Drop(DropReleases)
         case _ => Drop(DropTakesAdapter))
      case _ => awaited
  }

  /** A step of the run's own tasks, or of the party that has its `RunState`. */
  predicate OwnStep(s: State, r: RunId, a: Action)
    requires r in s.runs
  {
    match a
    case Start(_, _) => false
    case Stop(c, _) => s.runs[r].home == AtCall(c)
    case Task(q, _) => q == r
    case Drop(_) => s.runs[r].home == AtDrop
  }

  /** The run is no further from teardown, and no taker was struck from its log. */
  ghost predicate Forward(s: State, s': State, r: RunId)
    requires r in s.runs
  {
    r in s'.runs && s.runs[r].takers <= s'.runs[r].takers && Rank(s', r) <= Rank(s, r)
  }

  lemma StartMovesForward(s: State, c: CallId, a: StartStep, r: RunId)
    requires Inv(s) && StartEnabled(s, c, a) && r in s.runs
    ensures Forward(s, DoStart(s, c, a), r)
  {
    hide Inv, EngineInv;
    KnownCall(s, c);
    KnownRun(s, r);
  }

  lemma StopMovesForward(s: State, c: CallId, a: StopStep, r: RunId)
    requires Inv(s) && StopEnabled(s, c, a) && r in s.runs
    ensures Forward(s, DoStop(s, c, a), r)
  {
    hide Inv, Forward, DoStop, StopEnabled;
    if BeforeAwait(a) {
      EarlyStopMovesForward(s, c, a, r);
    } else {
      LateStopMovesForward(s, c, a, r);
    }
  }

  lemma EarlyStopMovesForward(s: State, c: CallId, a: StopStep, r: RunId)
    requires Inv(s) && StopEnabled(s, c, a) && r in s.runs && BeforeAwait(a)
    ensures Forward(s, DoStop(s, c, a), r)
  {
    hide Inv, EngineInv, LetGo, Taken;
    KnownCall(s, c);
    KnownRun(s, r);
  }

  lemma LateStopMovesForward(s: State, c: CallId, a: StopStep, r: RunId)
    requires Inv(s) && StopEnabled(s, c, a) && r in s.runs && !BeforeAwait(a)
    ensures Forward(s, DoStop(s, c, a), r)
  {
    hide Inv, EngineInv, NextFor;
    KnownCall(s, c);
    KnownRun(s, r);
    if r != s.calls[c].run {
      OtherRunKeepsRank(s, c, a, r);
    }
  }

  /** A stop working for one run leaves the others where they are. */
  lemma OtherRunKeepsRank(s: State, c: CallId, a: StopStep, r: RunId)
    requires Inv(s) && StopEnabled(s, c, a) && r in s.runs && !BeforeAwait(a) && r != s.calls[c].run
    ensures Forward(s, DoStop(s, c, a), r)
  {
    hide Inv, EngineInv, LetGo, Taken, Released;
    KnownCall(s, c);
    KnownRun(s, r);
  }

  lemma TaskMovesForward(s: State, q: RunId, a: TaskStep, r: RunId)
    requires Inv(s) && TaskEnabled(s, q, a) && r in s.runs
    ensures Forward(s, Put(s, q, DoTask(s.runs[q], a)), r)
  {
    hide Inv, EngineInv;
    KnownRun(s, r);
  }

  lemma DropMovesForward(s: State, a: DropStep, r: RunId)
    requires Inv(s) && DropEnabled(s, a) && r in s.runs
    ensures Forward(s, DoDrop(s, a), r)
  {
    hide Inv, EngineInv;
    KnownRun(s, r);
    KnownOwner(s);
  }

  /** Whatever is done, no adapter moves away from being gone, and its takers are never forgotten. */
  lemma StepMovesForward(s: State, a: Action, r: RunId)
    requires Inv(s) && Enabled(s, a) && r in s.runs
    ensures Forward(s, Do(s, a), r)
  {
    hide Inv, Forward, DoStart, DoStop, DoTask, DoDrop, StartEnabled, StopEnabled, TaskEnabled, DropEnabled;
    match a {
      case Start(c, b) => StartMovesForward(s, c, b, r);
      case Stop(c, b) => StopMovesForward(s, c, b, r);
      case Task(q, b) => TaskMovesForward(s, q, b, r);
      case Drop(b) => DropMovesForward(s, b, r);
    }
  }

  /** Step `a` can be taken, is one of the run's own, and brings its adapter closer to being gone. */
  ghost predicate CloserBy(s: State, r: RunId, a: Action)
    requires r in s.runs
  {
    && Enabled(s, a) && OwnStep(s, r, a)
    && r in Do(s, a).runs && GivenUp(Do(s, a), r) && Rank(Do(s, a), r) < Rank(s, r)
  }

  lemma CallCanProgress(s: State, r: RunId)
    requires Inv(s) && r in s.runs && !s.runs[r].adapter.Gone? && s.runs[r].home.AtCall? && GivenUp(s, r)
    ensures CloserBy(s, r, NextFor(s, r))
  {
    hide Inv, DoStart, DoDrop, StartEnabled, DropEnabled;
    KnownRun(s, r);
  }

  lemma OthersCanProgress(s: State, r: RunId)
    requires Inv(s) && r in s.runs && !s.runs[r].adapter.Gone? && (s.runs[r].home.AtDrop? || s.runs[r].home.Nowhere?)
    ensures CloserBy(s, r, NextFor(s, r))
  {
    hide Inv, DoStart, DoStop, StartEnabled, StopEnabled;
    KnownRun(s, r);
  }

  /** A given-up run is never stuck: until its adapter is gone, one of its own parties can take a step
      that brings it closer. */
  lemma GivenUpRunProgresses(t: seq<State>, acts: seq<Action>, i: nat, r: RunId)
    requires History(t, acts) && i < |t| && r in t[i].runs && GivenUp(t[i], r) && !t[i].runs[r].adapter.Gone?
    ensures CloserBy(t[i], r, NextFor(t[i], r))
  {
    hide Inv, CloserBy, NextFor;
    InvAlways(t, acts, i);
    if t[i].runs[r].home.AtCall? {
      CallCanProgress(t[i], r);
    } else {
      OthersCanProgress(t[i], r);
    }
  }

  /** Every action from `n` on is a step of the run's own. */
  ghost predicate OwnStepsFrom(t: seq<State>, acts: seq<Action>, n: nat, r: RunId) {
    forall i :: n <= i < |acts| && i < |t| ==> r in t[i].runs && OwnStep(t[i], r, acts[i])
  }

  /** From any point of any history, at most eleven steps of its own parties tear a given-up run down. */
  lemma {:induction false} TeardownCompletes(t: seq<State>, acts: seq<Action>, r: RunId)
    returns (t': seq<State>, acts': seq<Action>)
    requires History(t, acts) && r in t[|acts|].runs && GivenUp(t[|acts|], r)
    ensures History(t', acts') && acts <= acts' && |acts'| <= |acts| + Rank(t[|acts|], r) <= |acts| + 11
    ensures OwnStepsFrom(t', acts', |acts|, r)
    ensures r in t'[|acts'|].runs && t'[|acts'|].runs[r].adapter.Gone?
    decreases Rank(t[|acts|], r)
  {
    hide Rank, Enabled, Do, NextFor, GivenUp, OwnStep;
    var s := t[|acts|];
    RankOfGivenUp(t, acts, r);
    t', acts' := t, acts;
    if !s.runs[r].adapter.Gone? {
      GivenUpRunProgresses(t, acts, |acts|, r);
      var a := NextFor(s, r);
      var t1, acts1 := Extend(t, acts, a);
      t', acts' := TeardownCompletes(t1, acts1, r);
      HistoryIsDetermined(t1, acts1, t', acts', |acts|);
    }
  }

  lemma RankOfGivenUp(t: seq<State>, acts: seq<Action>, r: RunId)
    requires History(t, acts) && r in t[|acts|].runs && GivenUp(t[|acts|], r)
    ensures Rank(t[|acts|], r) <= 11
  {
    hide Inv;
    InvAlways(t, acts, |acts|);
    KnownRun(t[|acts|], r);
  }

  /** Histories that share their first actions share their first states. */
  lemma {:induction false} HistoryIsDetermined(t: seq<State>, acts: seq<Action>, t': seq<State>, acts': seq<Action>, i: nat)
    requires History(t, acts) && History(t', acts') && acts <= acts' && i < |t|
    ensures t'[i] == t[i]
  {
    hide Enabled, Do;
    if i > 0 {
      HistoryIsDetermined(t, acts, t', acts', i - 1);
      assert acts'[i - 1] == acts[i - 1];
    }
  }

  // ---- When two adapters can be alive ----

  predicate Alive(s: State, r: RunId) { r in s.runs && !s.runs[r].adapter.Gone? }

  /** The run still has the flag behind it. */
  ghost predicate Unretired(s: State, r: RunId)
    requires r in s.runs
  {
    match s.runs[r].home
    case AtSlot => true
    case AtCall(c) => c in s.calls && Critical(s.calls[c])
    case AtDrop => s.drop.DropTaken?
    case Nowhere => false
  }

  lemma OneUnretired(t: seq<State>, acts: seq<Action>, i: nat, r: RunId, q: RunId)
    requires History(t, acts) && i < |t| && r in t[i].runs && q in t[i].runs
    requires Unretired(t[i], r) && Unretired(t[i], q)
    ensures r == q && t[i].flag
  {
    hide Inv;
    InvAlways(t, acts, i);
    KnownRun(t[i], r);
    KnownRun(t[i], q);
  }

  /** Adapters whose `RunState` is dropped but that still live were left by a cancelled stop or by `drop`. */
  ghost predicate StraysExplained(s: State) {
    (exists r :: Alive(s, r) && s.runs[r].home == Nowhere) ==>
      s.drop.Dropped? || exists c :: c in s.calls && s.calls[c] == Returned(Cancelled)
  }

  lemma StepKeepsStrays(s: State, a: Action)
    requires Inv(s) && Enabled(s, a) && StraysExplained(s)
    ensures StraysExplained(Do(s, a))
  {
    hide Inv, Do, Enabled;
    var s' := Do(s, a);
    forall c | c in s.calls && s.calls[c].Returned? ensures c in s'.calls && s'.calls[c] == s.calls[c] {
      ReturnedStays(s, a, c);
    }
    if s.drop.Dropped? {
      DroppedStays(s, a);
    }
    forall r | Alive(s', r) && s'.runs[r].home == Nowhere && !(Alive(s, r) && s.runs[r].home == Nowhere)
      ensures StrayMade(s, a)
    {
      StrayAppears(s, a, r);
    }
    if StrayMade(s, a) && !s'.drop.Dropped? {
      assert s'.calls[a.d] == Returned(Cancelled);
    }
  }

  /** The step finishes `drop` or cancels a stop. */
  ghost predicate StrayMade(s: State, a: Action)
    requires Enabled(s, a)
  {
    Do(s, a).drop.Dropped? || (a.Stop? && a.d in Do(s, a).calls && Do(s, a).calls[a.d] == Returned(Cancelled))
  }

  lemma ReturnedStays(s: State, a: Action, c: CallId)
    requires Enabled(s, a) && c in s.calls && s.calls[c].Returned?
    ensures c in Do(s, a).calls && Do(s, a).calls[c] == s.calls[c]
  {
    hide DoStart, DoStop, DoTask, StartEnabled, StopEnabled;
    match a {
      case Start(d, b) => StartKeepsReturned(s, d, b, c);
      case Stop(d, b) => StopKeepsReturned(s, d, b, c);
      case Task(_, _) =>
      case Drop(_) =>
    }
  }

  lemma StartKeepsReturned(s: State, d: CallId, a: StartStep, c: CallId)
    requires StartEnabled(s, d, a) && c in s.calls && s.calls[c].Returned?
    ensures c in DoStart(s, d, a).calls && DoStart(s, d, a).calls[c] == s.calls[c]
  {
    hide Taken;
  }

  lemma StopKeepsReturned(s: State, d: CallId, a: StopStep, c: CallId)
    requires StopEnabled(s, d, a) && c in s.calls && s.calls[c].Returned?
    ensures c in DoStop(s, d, a).calls && DoStop(s, d, a).calls[c] == s.calls[c]
  {
    hide LetGo, Taken, Released;
  }

  lemma DroppedStays(s: State, a: Action)
    requires Enabled(s, a) && s.drop.Dropped?
    ensures Do(s, a).drop == s.drop
  {
    hide LetGo, Taken, Released;
  }

  lemma StrayAppears(s: State, a: Action, r: RunId)
    requires Inv(s) && Enabled(s, a) && Alive(Do(s, a), r) && Do(s, a).runs[r].home == Nowhere
    requires !(Alive(s, r) && s.runs[r].home == Nowhere)
    ensures StrayMade(s, a)
  {
    hide Inv, DoStart, DoStop, DoTask, DoDrop, StartEnabled, StopEnabled, TaskEnabled, DropEnabled;
    match a {
      case Start(c, b) => StartMakesNoStray(s, c, b, r);
      case Stop(c, b) => StopMakesStray(s, c, b, r);
      case Task(q, b) => TaskMakesNoStray(s, q, b, r);
      case Drop(b) => DropMakesStray(s, b, r);
    }
  }

  lemma StartMakesNoStray(s: State, c: CallId, a: StartStep, r: RunId)
    requires Inv(s) && StartEnabled(s, c, a) && Alive(DoStart(s, c, a), r) && DoStart(s, c, a).runs[r].home == Nowhere
    ensures Alive(s, r) && s.runs[r].home == Nowhere
  {
    hide Inv, RunInv;
    KnownCall(s, c);
  }

  lemma StopMakesStray(s: State, c: CallId, a: StopStep, r: RunId)
    requires Inv(s) && StopEnabled(s, c, a) && Alive(DoStop(s, c, a), r) && DoStop(s, c, a).runs[r].home == Nowhere
    ensures (Alive(s, r) && s.runs[r].home == Nowhere)
            || (c in DoStop(s, c, a).calls && DoStop(s, c, a).calls[c] == Returned(Cancelled))
  {
    hide Inv, RunInv;
    KnownCall(s, c);
  }

  lemma TaskMakesNoStray(s: State, q: RunId, a: TaskStep, r: RunId)
    requires TaskEnabled(s, q, a)
    requires var s' := Put(s, q, DoTask(s.runs[q], a)); Alive(s', r) && s'.runs[r].home == Nowhere
    ensures Alive(s, r) && s.runs[r].home == Nowhere
  {
  }

  lemma DropMakesStray(s: State, a: DropStep, r: RunId)
    requires Inv(s) && DropEnabled(s, a) && Alive(DoDrop(s, a), r) && DoDrop(s, a).runs[r].home == Nowhere
    ensures (Alive(s, r) && s.runs[r].home == Nowhere) || DoDrop(s, a).drop.Dropped?
  {
    hide Inv, RunInv;
    KnownOwner(s);
  }

  lemma {:induction false} StraysAlwaysExplained(t: seq<State>, acts: seq<Action>, i: nat)
    requires History(t, acts) && i < |t|
    ensures StraysExplained(t[i])
  {
    hide Inv, Enabled, Do;
    if i > 0 {
      StraysAlwaysExplained(t, acts, i - 1);
      InvAlways(t, acts, i - 1);
      StepKeepsStrays(t[i - 1], acts[i - 1]);
    }
  }

  /** No `stop` call is between its flag store and its return, none was cancelled, and `drop` has not begun. */
  predicate NoTeardownUnderWay(s: State) {
    && s.drop.NotDropped?
    && forall c :: c in s.calls ==>
         !s.calls[c].StopCleared? && !PastSignal(s.calls[c]) && s.calls[c] != Returned(Cancelled)
  }

  /** In every state of every history with no teardown under way, at most one adapter is alive, and the flag
      is set while one is. */
  lemma AtMostOneAdapter(t: seq<State>, acts: seq<Action>, i: nat, r: RunId, q: RunId)
    requires History(t, acts) && i < |t| && NoTeardownUnderWay(t[i])
    requires Alive(t[i], r) && Alive(t[i], q)
    ensures r == q && t[i].flag
  {
    hide Inv;
    AliveIsUnretired(t, acts, i, r);
    AliveIsUnretired(t, acts, i, q);
    OneUnretired(t, acts, i, r, q);
  }

  lemma AliveIsUnretired(t: seq<State>, acts: seq<Action>, i: nat, r: RunId)
    requires History(t, acts) && i < |t| && NoTeardownUnderWay(t[i]) && Alive(t[i], r)
    ensures Unretired(t[i], r)
  {
    hide Inv;
    InvAlways(t, acts, i);
    KnownRun(t[i], r);
    StraysAlwaysExplained(t, acts, i);
  }

  /** Exactly when a new `start` makes a second live adapter: from any point of any history where the flag is
      clear, its first steps can be taken, and afterwards two adapters are alive if and only if one was before. */
  lemma NewStartOverlapsExactly(t: seq<State>, acts: seq<Action>, c: CallId, q: RunId)
    returns (t': seq<State>, acts': seq<Action>)
    requires History(t, acts) && !t[|acts|].flag && t[|acts|].drop.NotDropped?
    requires c !in t[|acts|].calls && q !in t[|acts|].runs
    ensures History(t', acts') && acts' == acts + [Start(c, EnterStart), Start(c, CompareExchange), Start(c, Create(q))]
    ensures Alive(t'[|acts'|], q)
    ensures (exists r :: r != q && Alive(t'[|acts'|], r)) <==> exists r :: Alive(t[|acts|], r)
  {
    var s := t[|acts|];
    t', acts' := Extend(t, acts, Start(c, EnterStart));
    t', acts' := Extend(t', acts', Start(c, CompareExchange));
    t', acts' := Extend(t', acts', Start(c, Create(q)));
    var s' := t'[|acts'|];
    assert forall r :: r != q ==> (Alive(s', r) <==> Alive(s, r));
    if r :| Alive(s, r) {
      assert r != q && Alive(s', r);
    }
  }

  // ---- What the engine does not promise ----

  lemma Extend(t: seq<State>, acts: seq<Action>, a: Action) returns (t': seq<State>, acts': seq<Action>)
    requires History(t, acts) && Enabled(t[|acts|], a)
    ensures acts' == acts + [a] && t' == t + [Do(t[|acts|], a)] && History(t', acts')
  {
    hide Enabled, Do;
    t', acts' := t + [Do(t[|acts|], a)], acts + [a];
  }

  /** A history in which run 0 was started and published. */
  lemma Published() returns (t: seq<State>, acts: seq<Action>)
    ensures History(t, acts)
    ensures t[|acts|] == State(true, Some(0), map[0 := Run(InCell, Waiting, false, false, AtSlot, [])],
                               map[0 := Returned(StartOk)], NotDropped, AtSlot)
  {
    t, acts := [Init], [];
    t, acts := Extend(t, acts, Start(0, EnterStart));
    t, acts := Extend(t, acts, Start(0, CompareExchange));
    t, acts := Extend(t, acts, Start(0, Create(0)));
    t, acts := Extend(t, acts, Start(0, Spawn));
    t, acts := Extend(t, acts, Start(0, Publish));
    assert t[|acts|].runs == map[0 := Run(InCell, Waiting, false, false, AtSlot, [])];
    assert t[|acts|].calls == map[0 := Returned(StartOk)];
  }

  /** "At most one adapter is alive" is false: `stop` clears the flag before the teardown is done, so
      a new `start` can create its adapter while the old one is still in its cell. */
  lemma TwoAdaptersCanOverlap() returns (t: seq<State>, acts: seq<Action>)
    ensures History(t, acts)
    ensures var s := t[|acts|]; 0 in s.runs && 1 in s.runs && s.runs[0].adapter.InCell? && s.runs[1].adapter.Local?
  {
    t, acts := Published();
    t, acts := Extend(t, acts, Stop(1, EnterStop));
    t, acts := Extend(t, acts, Stop(1, TakeRun));
    t, acts := Extend(t, acts, Stop(1, ClearFlag));
    t, acts := Extend(t, acts, Start(2, EnterStart));
    t, acts := Extend(t, acts, Start(2, CompareExchange));
    t, acts := Extend(t, acts, Start(2, Create(1)));
  }

  /** "A running engine has its adapter" is false: `is_running` looks at the slot, which stays full
      when the netstack ends by itself and the watchdog tears the tunnel down. */
  lemma RunningCanOutliveAdapter() returns (t: seq<State>, acts: seq<Action>)
    ensures History(t, acts)
    ensures var s := t[|acts|]; s.slot == Some(0) && 0 in s.runs && s.runs[0].adapter.Gone?
  {
    t, acts := Published();
    t, acts := Extend(t, acts, Task(0, NetstackEnds));
    t, acts := Extend(t, acts, Task(0, WatchdogTakes));
    t, acts := Extend(t, acts, Task(0, WatchdogReleases));
  }

  /** Until its netstack ends, a running engine does have its adapter, in its cell. */
  lemma RunningHasAdapterUntilNetstackEnds(t: seq<State>, acts: seq<Action>, i: nat, r: RunId)
    requires History(t, acts) && i < |t| && t[i].slot == Some(r)
    ensures r in t[i].runs && (!t[i].runs[r].netstackEnded ==> t[i].runs[r].adapter.InCell?)
  {
    hide Inv;
    InvAlways(t, acts, i);
    KnownRun(t[i], r);
  }

  /** A start that unwinds past its compare-exchange leaves the flag set. */
  lemma StartCanUnwind() returns (t: seq<State>, acts: seq<Action>)
    ensures History(t, acts)
    ensures var s := t[|acts|]; 0 in s.calls && s.calls[0] == Returned(Unwound) && s.flag && s.runs == map[]
  {
    t, acts := [Init], [];
    t, acts := Extend(t, acts, Start(0, EnterStart));
    t, acts := Extend(t, acts, Start(0, CompareExchange));
    t, acts := Extend(t, acts, Start(0, Unwind));
  }

  /** After that the engine is stuck: in every later state the flag is set, nothing is published, and a
      compare-exchange can only report that the engine is already running. */
  lemma {:induction false} UnwoundIsStuck(t: seq<State>, acts: seq<Action>, i: nat, j: nat, c: CallId)
    requires History(t, acts) && i <= j < |t| && c in t[i].calls && t[i].calls[c] == Returned(Unwound)
    ensures c in t[j].calls && t[j].calls[c] == Returned(Unwound) && t[j].flag && t[j].slot == None
    ensures forall d :: StartEnabled(t[j], d, CompareExchange) ==>
              DoStart(t[j], d, CompareExchange).calls[d] == Returned(AlreadyRunning)
    decreases j
  {
    hide Inv, Enabled, Do;
    if i < j {
      UnwoundIsStuck(t, acts, i, j - 1, c);
      assert Enabled(t[j - 1], acts[j - 1]) && t[j] == Do(t[j - 1], acts[j - 1]);
      ReturnedStays(t[j - 1], acts[j - 1], c);
    }
    InvAlways(t, acts, j);
    KnownCall(t[j], c);
  }
}

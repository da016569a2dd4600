/** ThreadedAction (action_node.cpp) as a step system: the thread that ticks and halts the node,
    and the workers it spawns, one for each session, in every interleaving. A session starts
    when executeTick finds the node idle. */
module ThreadedAction {

  datatype NodeStatus = IDLE | RUNNING | SUCCESS | FAILURE | SKIPPED

  datatype Option<+T> = None | Some(value: T)

  type Session = nat

  /** How the user's tick() ends. */
  datatype Outcome = Returns(st: NodeStatus) | Throws | ThrowsOther

  /** Where a worker is. */
  datatype WorkerPc =
    | Ticking
    | Returned(st: NodeStatus)  // about to look at halt_requested_
    | Setting(st: NodeStatus)   // about to call setStatus
    | Catching                  // in the handler for std::exception, at the lock of mutex_
    | Waking                    // about to emit the wake-up signal
    | Done                      // the future is ready

  /** Where the ticking thread is. */
  datatype MainPc =
    | Outside
    | TickCheck                 // executeTick: is the node idle?
    | TickRunning               // about to call setStatus(RUNNING)
    | TickClear                 // about to clear halt_requested_
    | TickLaunch                // about to call std::async
    | TickAwait                 // has launched; assigning the handle waits for the old worker
    | TickLock                  // at the lock of mutex_
    | TickReport                // holds mutex_, there was no exception
    | HaltFlag(reset: bool)     // halt: about to set halt_requested_
    | HaltWait(reset: bool)
    | HaltDrop(reset: bool)     // about to drop the handle
    | HaltReset(reset: bool)    // about to call resetStatus
    | ResetCheck                // resetChild: is the child running?
    | ResetFinal                // resetChild: about to call resetStatus
    | CompletedCheck            // has the child succeeded or failed? If so it is reset

  /** What a call of executeTick gave its caller. */
  datatype TickResult = Reported(st: NodeStatus) | Rethrew(raisedIn: Session)

  /** The node, the threads, and four histories: the number of the current session, what was in
      exptr_ when it started, whether the current call of executeTick started it, and what the
      session's last executeTick gave. */
  datatype State = State(
    status: NodeStatus,
    haltRequested: bool,
    exptr: Option<Session>,     // which session's worker stored it
    handle: Option<Session>,
    mutexHeld: bool,            // by the ticking thread
    main: MainPc,
    workers: map<Session, WorkerPc>,
    session: Session,
    inherited: Option<Session>,
    starter: bool,
    result: Option<TickResult>)

  /** What the tree may call on the node. */
  datatype Call = ExecuteTick | Halt | ResetChild | ResetCompleted

  /** Whose step it is; what an outside thread calls, or how the tick of a worker ends. */
  datatype Label = Main(call: Call) | Worker(w: Session, outcome: Outcome)

  predicate IsDone(s: State, w: Session) {
    w in s.workers && s.workers[w] == Done
  }

  function StepMain(s: State, call: Call): Option<State> {
    match s.main
    case Outside => Some(s.(main := match call
      case ExecuteTick => TickCheck
      case Halt => HaltFlag(false)
      case ResetChild => ResetCheck
      case ResetCompleted => CompletedCheck))
    case TickCheck =>
      Some(if s.status == IDLE then s.(main := TickRunning) else s.(main := TickLock, starter := false))
    case TickRunning =>
      Some(s.(status := RUNNING, session := s.session + 1, inherited := s.exptr, starter := true, result := None,
        main := TickClear))
    case TickClear => Some(s.(haltRequested := false, main := TickLaunch))
    case TickLaunch => Some(s.(workers := s.workers[s.session := Ticking], main := TickAwait))
    case TickAwait =>
      if s.handle.Some? && !IsDone(s, s.handle.value) then None
      else Some(s.(handle := Some(s.session), main := TickLock))
    case TickLock =>
      if s.exptr.Some? then Some(s.(exptr := None, result := Some(Rethrew(s.exptr.value)), main := Outside))
      else Some(s.(mutexHeld := true, main := TickReport))
    case TickReport => Some(s.(mutexHeld := false, result := Some(Reported(s.status)), main := Outside))
    case HaltFlag(reset) => Some(s.(haltRequested := true, main := HaltWait(reset)))
    case HaltWait(reset) =>
      if s.handle.Some? && !IsDone(s, s.handle.value) then None
      else Some(s.(main := HaltDrop(reset)))
    case HaltDrop(reset) => Some(s.(handle := None, main := HaltReset(reset)))
    case HaltReset(reset) => Some(s.(status := IDLE, main := if reset then ResetFinal else Outside))
    case ResetCheck => Some(s.(main := if s.status == RUNNING then HaltFlag(true) else ResetFinal))
    case ResetFinal => Some(s.(status := IDLE, main := Outside))
    case CompletedCheck =>
      Some(s.(main := if s.status == SUCCESS || s.status == FAILURE then ResetFinal else Outside))
  }

  function MoveWorker(s: State, w: Session, pc: WorkerPc): State {
    s.(workers := s.workers[w := pc])
  }

  function StepWorker(s: State, w: Session, outcome: Outcome): Option<State>
    requires w in s.workers
  {
    match s.workers[w]
    case Ticking => Some(MoveWorker(s, w, match outcome
      case Returns(st) => Returned(st)
      case Throws => Catching
      case ThrowsOther => Done))
    case Returned(st) => Some(MoveWorker(s, w, if s.haltRequested then Waking else Setting(st)))
    case Setting(st) =>
      // setStatus throws if it is told to set IDLE
      Some(if st == IDLE then MoveWorker(s, w, Catching) else MoveWorker(s.(status := st), w, Waking))
    case Catching =>
      // setStatus(IDLE) throws in the handler, too: the status stays, and nobody is woken up
      if s.mutexHeld then None else Some(MoveWorker(s.(exptr := Some(w)), w, Done))
    case Waking => Some(MoveWorker(s, w, Done))
    case Done => None
  }

  function Step(s: State, l: Label): Option<State> {
    match l
    case Main(call) => StepMain(s, call)
    case Worker(w, outcome) => if w in s.workers then StepWorker(s, w, outcome) else None
  }

  const INIT := State(IDLE, false, None, None, false, Outside, map[], 0, None, false, None)

  /** A run; a step that cannot be taken is passed over. */
  function Run(s: State, schedule: seq<Label>): State
    decreases |schedule|
  {
    if schedule == [] then s
    else
      var next := Step(s, schedule[0]);
      Run(if next.Some? then next.value else s, schedule[1..])
  }

  // ---------------------------------------------------------------- the invariant

  /** A worker that may still change the node's status or its exception. */
  predicate Live(pc: WorkerPc) {
    pc.Ticking? || pc.Returned? || pc.Setting? || pc.Catching?
  }

  /** The ticking thread is where no worker is live. */
  predicate Quiet(pc: MainPc) {
    pc.TickRunning? || pc.TickClear? || pc.TickLaunch? || pc.HaltDrop? || pc.HaltReset? || pc.ResetFinal?
  }

  /** A live worker belongs to the current session, the node is running, and the handle is the
      one to wait for it. */
  predicate LiveOk(s: State, w: Session)
    requires w in s.workers
  {
    Live(s.workers[w]) ==>
      w == s.session && s.status == RUNNING && !Quiet(s.main) && (s.handle == Some(w) || s.main == TickAwait)
  }

  predicate Inv(s: State) {
    && (forall w :: w in s.workers ==> LiveOk(s, w) && w <= s.session)
    && (s.handle.Some? ==> s.handle.value in s.workers)
    && (s.mutexHeld <==> s.main == TickReport)
    && (s.main.TickLaunch? ==> s.session !in s.workers)
    && (s.main.TickRunning? ==> s.status == IDLE)
    && (s.main.TickClear? ==> s.session !in s.workers)
    && (s.main.TickClear? || s.main.TickLaunch? ==> s.status == RUNNING)
    && (s.main.TickAwait? ==> s.session in s.workers)
    && (s.exptr.Some? ==> s.exptr.value in s.workers && s.workers[s.exptr.value] == Done)
  }

  /** Whose exception exptr_ holds: the current session's worker's, or the one that was there
      when the session started; and so whose exception a call of executeTick has thrown. */
  predicate OwnOrInherited(s: State) {
    && (s.exptr.Some? ==> s.exptr.value == s.session || s.exptr == s.inherited)
    && (s.result.Some? && s.result.value.Rethrew? ==>
          s.result.value.raisedIn == s.session || Some(s.result.value.raisedIn) == s.inherited)
  }

  /** The ticking thread is between starting a session and looking at the exception. */
  predicate Starting(pc: MainPc) {
    match pc
    case TickClear | TickLaunch | TickAwait => true
    case _ => false
  }

  /** What was in exptr_ when the session started stays there until the call that started it looks,
      or gives way to the exception of the session's worker. */
  predicate KeptUntilSeen(s: State) {
    && (Starting(s.main) ==> s.starter)
    && (s.starter && s.inherited.Some? && (Starting(s.main) || s.main == TickLock) ==> s.exptr.Some?)
  }

  lemma CheckKeeps(s: State, call: Call)
    requires Inv(s) && (s.main.Outside? || s.main.TickCheck? || s.main.ResetCheck? || s.main.CompletedCheck?)
    ensures StepMain(s, call).Some? && Inv(StepMain(s, call).value)
  {
  }

  lemma LaunchKeeps(s: State, call: Call)
    requires Inv(s) && (s.main.TickRunning? || s.main.TickClear? || s.main.TickLaunch?)
    ensures StepMain(s, call).Some? && Inv(StepMain(s, call).value)
  {
  }

  lemma FetchKeeps(s: State, call: Call)
    requires Inv(s) && (s.main.TickAwait? || s.main.TickLock? || s.main.TickReport?) && StepMain(s, call).Some?
    ensures Inv(StepMain(s, call).value)
  {
  }

  lemma HaltKeeps(s: State, call: Call)
    requires Inv(s)
    requires s.main.HaltFlag? || s.main.HaltWait? || s.main.HaltDrop? || s.main.HaltReset? || s.main.ResetFinal?
    requires StepMain(s, call).Some?
    ensures Inv(StepMain(s, call).value)
  {
  }

  lemma MainKeeps(s: State, call: Call)
    requires Inv(s) && StepMain(s, call).Some?
    ensures Inv(StepMain(s, call).value)
  {
    hide Inv, StepMain;
    match s.main
    case Outside | TickCheck | ResetCheck | CompletedCheck => CheckKeeps(s, call);
    case TickRunning | TickClear | TickLaunch => LaunchKeeps(s, call);
    case TickAwait | TickLock | TickReport => FetchKeeps(s, call);
    case _ => HaltKeeps(s, call);
  }

  lemma TickingKeeps(s: State, w: Session, outcome: Outcome)
    requires Inv(s) && w in s.workers && (s.workers[w].Ticking? || s.workers[w].Returned? || s.workers[w].Waking?)
    ensures StepWorker(s, w, outcome).Some? && Inv(StepWorker(s, w, outcome).value)
  {
  }

  lemma SettingKeeps(s: State, w: Session, outcome: Outcome)
    requires Inv(s) && w in s.workers && (s.workers[w].Setting? || s.workers[w].Catching?)
    requires StepWorker(s, w, outcome).Some?
    ensures Inv(StepWorker(s, w, outcome).value)
  {
  }

  lemma WorkerKeeps(s: State, w: Session, outcome: Outcome)
    requires Inv(s) && w in s.workers && StepWorker(s, w, outcome).Some?
    ensures Inv(StepWorker(s, w, outcome).value)
  {
    if s.workers[w].Setting? || s.workers[w].Catching? {
      SettingKeeps(s, w, outcome);
    } else {
      hide Inv;
      TickingKeeps(s, w, outcome);
    }
  }

  predicate TouchesException(pc: MainPc) {
    match pc
    case TickRunning | TickLock | TickReport => true
    case _ => false
  }

  lemma MainFrame(s: State, call: Call)
    requires StepMain(s, call).Some? && !TouchesException(s.main)
    ensures var t := StepMain(s, call).value;
      t.exptr == s.exptr && t.result == s.result && t.session == s.session && t.inherited == s.inherited
  {
  }

  lemma MainKeepsOwn(s: State, call: Call)
    requires OwnOrInherited(s) && StepMain(s, call).Some?
    ensures OwnOrInherited(StepMain(s, call).value)
  {
    if !TouchesException(s.main) {
      hide StepMain, TouchesException;
      MainFrame(s, call);
    }
  }

  lemma MainKeepsSeen(s: State, call: Call)
    requires KeptUntilSeen(s) && StepMain(s, call).Some?
    ensures KeptUntilSeen(StepMain(s, call).value)
  {
  }

  lemma WorkerKeepsException(s: State, w: Session, outcome: Outcome)
    requires w in s.workers && LiveOk(s, w) && StepWorker(s, w, outcome).Some?
    requires OwnOrInherited(s) && KeptUntilSeen(s)
    ensures OwnOrInherited(StepWorker(s, w, outcome).value) && KeptUntilSeen(StepWorker(s, w, outcome).value)
  {
    hide StepWorker;
    WorkerFrame(s, w, outcome);
  }

  /** All a worker can change. */
  lemma WorkerFrame(s: State, w: Session, outcome: Outcome)
    requires w in s.workers && StepWorker(s, w, outcome).Some?
    ensures var t := StepWorker(s, w, outcome).value;
      && t == s.(status := t.status, exptr := t.exptr, workers := s.workers[w := t.workers[w]])
      && (t.exptr == s.exptr || (s.workers[w].Catching? && t.exptr == Some(w)))
      && (t.status == s.status || s.workers[w].Setting?)
  {
  }

  lemma InvLive(s: State, w: Session)
    requires Inv(s) && w in s.workers
    ensures LiveOk(s, w) && w <= s.session
  {
  }

  /** What holds in every reachable state. */
  predicate Safe(s: State) {
    Inv(s) && OwnOrInherited(s) && KeptUntilSeen(s)
  }

  lemma StepKeeps(s: State, l: Label)
    requires Safe(s) && Step(s, l).Some?
    ensures Safe(Step(s, l).value)
  {
    hide Inv, OwnOrInherited, KeptUntilSeen, LiveOk, StepMain, StepWorker;
    match l
    case Main(call) =>
      MainKeeps(s, call);
      MainKeepsOwn(s, call);
      MainKeepsSeen(s, call);
    case Worker(w, outcome) =>
      InvLive(s, w);
      WorkerKeeps(s, w, outcome);
      WorkerKeepsException(s, w, outcome);
  }

  lemma {:induction false} RunKeeps(s: State, schedule: seq<Label>)
    requires Safe(s)
    ensures Safe(Run(s, schedule))
    decreases |schedule|
  {
    hide Safe, Step;
    if schedule != [] {
      var next := Step(s, schedule[0]);
      if next.Some? {
        StepKeeps(s, schedule[0]);
        RunKeeps(next.value, schedule[1..]);
      } else {
        RunKeeps(s, schedule[1..]);
      }
    }
  }

  lemma {:induction false} RunConcat(s: State, a: seq<Label>, b: seq<Label>)
    ensures Run(s, a + b) == Run(Run(s, a), b)
    decreases |a|
  {
    hide Step;
    if a == [] {
      assert a + b == b;
    } else {
      assert (a + b)[1..] == a[1..] + b;
      var next := Step(s, a[0]);
      RunConcat(if next.Some? then next.value else s, a[1..], b);
    }
  }

  lemma Reachable(schedule: seq<Label>)
    ensures Safe(Run(INIT, schedule))
  {
    RunKeeps(INIT, schedule);
  }

  // ---------------------------------------------------------------- halt

  /** Nothing of this kind calls executeTick. */
  predicate NoTicks(schedule: seq<Label>) {
    forall k :: 0 <= k < |schedule| ==> schedule[k] != Main(ExecuteTick)
  }

  /** The node is idle, and the ticking thread is not in executeTick. */
  predicate AtRest(s: State) {
    s.status == IDLE && (s.main.Outside? || IsHalting(s.main))
  }

  predicate IsHalting(pc: MainPc) {
    match pc
    case HaltFlag(_) | HaltWait(_) | HaltDrop(_) | HaltReset(_) | ResetCheck | ResetFinal | CompletedCheck => true
    case _ => false
  }

  lemma RestKept(s: State, l: Label)
    requires Inv(s) && AtRest(s) && l != Main(ExecuteTick) && Step(s, l).Some?
    ensures AtRest(Step(s, l).value)
  {
    if l.Worker? {
      InvLive(s, l.w);
    }
  }

  lemma {:induction false} RestStays(s: State, schedule: seq<Label>)
    requires Safe(s) && AtRest(s) && NoTicks(schedule)
    ensures AtRest(Run(s, schedule))
    decreases |schedule|
  {
    hide Inv, OwnOrInherited, KeptUntilSeen, AtRest, Step;
    if schedule != [] {
      var next := Step(s, schedule[0]);
      if next.Some? {
        RestKept(s, schedule[0]);
        StepKeeps(s, schedule[0]);
        RestStays(next.value, schedule[1..]);
      } else {
        RestStays(s, schedule[1..]);
      }
    }
  }

  /** When halt (or the reset of a child) returns, the status is IDLE, and it is IDLE at every
      later moment until executeTick is called, whatever the workers still do. */
  lemma HaltIsFinal(before: seq<Label>, call: Call, after: seq<Label>)
    requires var s := Run(INIT, before); s.main == HaltReset(false) || s.main == ResetFinal
    requires NoTicks(after)
    ensures Run(INIT, before + [Main(call)]).main == Outside
    ensures Run(INIT, before + [Main(call)] + after).status == IDLE
  {
    hide Inv, OwnOrInherited, KeptUntilSeen;
    var s := Run(INIT, before);
    Reachable(before);
    RunConcat(INIT, before, [Main(call)]);
    RunConcat(INIT, before + [Main(call)], after);
    var t := StepMain(s, call).value;
    assert Run(s, [Main(call)]) == t;
    StepKeeps(s, Main(call));
    RestStays(t, after);
  }

  // ---------------------------------------------------------------- workers keep to their session

  /** A worker changes the status or the exception only while the session that spawned it is the
      current one and the node is running. */
  lemma WritesOwnSession(before: seq<Label>, w: Session, outcome: Outcome)
    requires var s := Run(INIT, before); w in s.workers && StepWorker(s, w, outcome).Some?
    ensures var s := Run(INIT, before); var t := StepWorker(s, w, outcome).value;
      s.status != t.status || s.exptr != t.exptr ==> w == s.session && s.status == RUNNING
  {
    Reachable(before);
    InvLive(Run(INIT, before), w);
  }

  // ---------------------------------------------------------------- exceptions of older sessions

  /** A call of executeTick in session n has thrown what the worker of another session raised. */
  predicate ThrewStale(s: State, n: Session) {
    s.session == n && s.result.Some? && s.result.value.Rethrew? && s.result.value.raisedIn != n
  }

  /** Session n is about to start with exptr_ clear, or it started so, or it is over. */
  predicate Clean(s: State, n: Session) {
    || (s.session + 1 == n && s.main == TickRunning && s.exptr == None)
    || (s.session == n && s.inherited == None)
    || s.session > n
  }

  lemma CleanKeptMain(s: State, call: Call, n: Session)
    requires Clean(s, n) && StepMain(s, call).Some?
    ensures Clean(StepMain(s, call).value, n)
  {
    if !TouchesException(s.main) {
      hide StepMain, TouchesException;
      MainFrame(s, call);
      NotAtStart(s.main);
    }
  }

  lemma NotAtStart(pc: MainPc)
    requires !TouchesException(pc)
    ensures pc != TickRunning
  {
  }

  lemma CleanKept(s: State, l: Label, n: Session)
    requires Safe(s) && Clean(s, n) && Step(s, l).Some?
    ensures Clean(Step(s, l).value, n)
  {
    hide StepMain, StepWorker, OwnOrInherited, KeptUntilSeen, Inv;
    match l
    case Main(call) => CleanKeptMain(s, call, n);
    case Worker(w, outcome) =>
      InvLive(s, w);
      WorkerFrame(s, w, outcome);
  }

  lemma {:induction false} CleanStays(s: State, schedule: seq<Label>, n: Session)
    requires Safe(s) && Clean(s, n)
    ensures Clean(Run(s, schedule), n)
    decreases |schedule|
  {
    hide Step, Clean, Safe;
    if schedule != [] {
      var next := Step(s, schedule[0]);
      if next.Some? {
        CleanKept(s, schedule[0], n);
        StepKeeps(s, schedule[0]);
        CleanStays(next.value, schedule[1..], n);
      } else {
        CleanStays(s, schedule[1..], n);
      }
    }
  }

  lemma OldWorkerEnds(s: State, w: Session)
    requires Safe(s) && s.main == TickRunning && s.handle == Some(w)
    ensures var t := Run(s, [Worker(w, Throws)]);
      t == s.(workers := t.workers) && IsDone(t, w) && w <= s.session
  {
    InvLive(s, w);
  }

  lemma LaunchRuns(s: State, call: Call)
    requires s.main == TickRunning
    ensures Run(s, [Main(call), Main(call), Main(call)]) ==
      s.(status := RUNNING, session := s.session + 1, inherited := s.exptr, starter := true, result := None,
         haltRequested := false, workers := s.workers[s.session + 1 := Ticking], main := TickAwait)
  {
    var c := Main(call);
    var t := StepMain(s, call).value;
    RunOn(s, c, [c, c]);
    RunOn(t, c, [c]);
    RunOn(StepMain(t, call).value, c, []);
  }

  lemma LookRuns(s: State, call: Call)
    requires s.main == TickAwait && s.exptr.Some?
    requires s.handle.Some? ==> IsDone(s, s.handle.value)
    ensures Run(s, [Main(call), Main(call)]).result == Some(Rethrew(s.exptr.value))
    ensures Run(s, [Main(call), Main(call)]).session == s.session
  {
    var c := Main(call);
    var t := StepMain(s, call).value;
    RunOn(s, c, [c]);
    RunOn(t, c, []);
    assert StepMain(t, call) == Some(t.(exptr := None, result := Some(Rethrew(t.exptr.value)), main := Outside));
  }

  lemma RunOn(s: State, l: Label, rest: seq<Label>)
    requires Step(s, l).Some?
    ensures Run(s, [l] + rest) == Run(Step(s, l).value, rest)
    ensures rest == [] ==> Run(s, [l]) == Step(s, l).value
  {
    assert ([l] + rest)[1..] == rest;
    assert rest == [] ==> [l] + rest == [l];
  }

  /** The call that is about to start a session of a reachable node can end up throwing the
      exception of an older session's worker, or a later call in the session can, if and only if
      exptr_ is set at that moment: halt and resetStatus do not clear it. */
  lemma StaleExactly(before: seq<Label>)
    requires Run(INIT, before).main == TickRunning
    ensures var s := Run(INIT, before);
      s.exptr.Some? <==> exists schedule :: ThrewStale(Run(s, schedule), s.session + 1)
  {
    hide Run, Safe, StepMain;
    var s := Run(INIT, before);
    Reachable(before);
    if s.exptr.Some? {
      StaleThrown(s);
    } else {
      forall schedule ensures !ThrewStale(Run(s, schedule), s.session + 1) {
        StaleNotThrown(s, schedule);
      }
    }
  }

  lemma ExceptionOld(s: State)
    requires Safe(s) && s.exptr.Some?
    ensures s.exptr.value <= s.session
  {
    InvLive(s, s.exptr.value);
  }

  lemma StaleThrown(s: State)
    requires Safe(s) && s.main == TickRunning && s.exptr.Some?
    ensures exists schedule :: ThrewStale(Run(s, schedule), s.session + 1)
  {
    hide Run, Step, Safe;
    var c := Main(ExecuteTick);
    var first: seq<Label> := if s.handle.Some? then [Worker(s.handle.value, Throws)] else [];
    var t := Run(s, first);
    ExceptionOld(s);
    if s.handle.Some? {
      OldWorkerEnds(s, s.handle.value);
    } else {
      RunNothing(s);
    }
    LaunchRuns(t, ExecuteTick);
    var u := Run(t, [c, c, c]);
    LookRuns(u, ExecuteTick);
    RunConcat(s, first, [c, c, c]);
    RunConcat(s, first + [c, c, c], [c, c]);
    assert ThrewStale(Run(s, first + [c, c, c] + [c, c]), s.session + 1);
  }

  lemma RunNothing(s: State)
    ensures Run(s, []) == s
  {
  }

  lemma StaleNotThrown(s: State, schedule: seq<Label>)
    requires Safe(s) && s.main == TickRunning && s.exptr == None
    ensures !ThrewStale(Run(s, schedule), s.session + 1)
  {
    hide Run, Inv, KeptUntilSeen;
    RunKeeps(s, schedule);
    CleanStays(s, schedule, s.session + 1);
  }

  // ---------------------------------------------------------------- that it does happen

  lemma CheckRuns(s: State)
    requires s.main == Outside && s.status == IDLE
    ensures Run(s, [Main(ExecuteTick), Main(ExecuteTick)]) == s.(main := TickRunning)
  {
    var c := Main(ExecuteTick);
    RunOn(s, c, [c]);
    RunOn(s.(main := TickCheck), c, []);
  }

  lemma ReportRuns(s: State)
    requires s.main == TickAwait && s.exptr == None && !s.mutexHeld
    requires s.handle.Some? ==> IsDone(s, s.handle.value)
    ensures var c := Main(ExecuteTick);
      Run(s, [c, c, c]) == s.(handle := Some(s.session), result := Some(Reported(s.status)), main := Outside)
  {
    var c := Main(ExecuteTick);
    var t := s.(handle := Some(s.session), main := TickLock);
    RunOn(s, c, [c, c]);
    RunOn(t, c, [c]);
    RunOn(t.(mutexHeld := true, main := TickReport), c, []);
  }

  lemma HaltRuns(s: State)
    requires s.main == Outside && s.handle.Some? && IsDone(s, s.handle.value)
    ensures var c := Main(Halt);
      Run(s, [c, c, c] + [c, c]) == s.(haltRequested := true, handle := None, status := IDLE)
  {
    var c := Main(Halt);
    var t := s.(haltRequested := true, main := HaltDrop(false));
    HaltWaits(s);
    RunOn(t, c, [c]);
    RunOn(t.(handle := None, main := HaltReset(false)), c, []);
    RunConcat(s, [c, c, c], [c, c]);
  }

  lemma HaltWaits(s: State)
    requires s.main == Outside && s.handle.Some? && IsDone(s, s.handle.value)
    ensures var c := Main(Halt);
      Run(s, [c, c, c]) == s.(haltRequested := true, main := HaltDrop(false))
  {
    var c := Main(Halt);
    RunOn(s, c, [c, c]);
    RunOn(s.(main := HaltFlag(false)), c, [c]);
    RunOn(s.(haltRequested := true, main := HaltWait(false)), c, []);
  }

  const FIRST_TICK: seq<Label> :=
    var c := Main(ExecuteTick); [c, c] + [c, c, c] + [c, c, c]

  const STARTED := State(RUNNING, false, None, Some(1), false, Outside, map[1 := Ticking], 1, None, true,
    Some(Reported(RUNNING)))

  lemma FirstTick()
    ensures Run(INIT, FIRST_TICK) == STARTED
  {
    hide Run;
    var c := Main(ExecuteTick);
    CheckRuns(INIT);
    LaunchRuns(INIT.(main := TickRunning), ExecuteTick);
    RunConcat(INIT, [c, c], [c, c, c]);
    ReportRuns(Run(INIT, [c, c] + [c, c, c]));
    RunConcat(INIT, [c, c] + [c, c, c], [c, c, c]);
  }

  lemma WorkerFails()
    ensures Run(STARTED, [Worker(1, Throws), Worker(1, Throws)])
      == STARTED.(exptr := Some(1), workers := map[1 := Done])
  {
    var c := Worker(1, Throws);
    RunOn(STARTED, c, [c]);
    RunOn(STARTED.(workers := map[1 := Catching]), c, []);
    assert map[1 := Ticking][1 := Catching] == map[1 := Catching];
    assert map[1 := Catching][1 := Done] == map[1 := Done];
  }

  /** A run in which a session starts with the exception of the one before it: the tick of the
      first session throws, the node is halted, and executeTick is called again. */
  lemma LeakHappens() returns (before: seq<Label>)
    ensures Run(INIT, before).main == TickRunning && Run(INIT, before).session == 1
    ensures Run(INIT, before).exptr == Some(1)
  {
    hide Run;
    var c := Main(Halt);
    FirstTick();
    WorkerFails();
    var fails := [Worker(1, Throws), Worker(1, Throws)];
    RunConcat(INIT, FIRST_TICK, fails);
    var failed := Run(INIT, FIRST_TICK + fails);
    HaltRuns(failed);
    RunConcat(INIT, FIRST_TICK + fails, [c, c, c] + [c, c]);
    CheckRuns(Run(failed, [c, c, c] + [c, c]));
    before := FIRST_TICK + fails + ([c, c, c] + [c, c]) + [Main(ExecuteTick), Main(ExecuteTick)];
    RunConcat(INIT, FIRST_TICK + fails + ([c, c, c] + [c, c]), [Main(ExecuteTick), Main(ExecuteTick)]);
  }

  /** Why a running child may only be reset through halt: if its status is set to IDLE behind its
      back while its worker is ticking, that worker writes its result into the next session. */
  lemma BareResetBreaks()
    ensures var s := Run(INIT, FIRST_TICK).(status := IDLE);
      exists schedule, w ::
        var t := Run(s, schedule);
        && w in t.workers && w != t.session && t.workers[w] == Setting(SUCCESS)
        && StepWorker(t, w, Throws) == Some(MoveWorker(t.(status := SUCCESS), w, Waking))
  {
    hide Run;
    FirstTick();
    var s := STARTED.(status := IDLE);
    CheckRuns(s);
    var c, o := Main(ExecuteTick), Worker(1, Returns(SUCCESS));
    var t := s.(main := TickRunning);
    var u := t.(status := RUNNING, session := 2, starter := true, result := None, main := TickClear);
    assert Step(t, c) == Some(u);
    RunOn(t, c, [o, o]);
    RunOn(u, o, [o]);
    RunOn(u.(workers := u.workers[1 := Returned(SUCCESS)]), o, []);
    RunConcat(s, [c, c], [c] + [o, o]);
    assert [o] + [o] == [o, o];
    var v := Run(s, [c, c] + ([c] + [o, o]));
    assert 1 in v.workers && 1 != v.session;
  }

  // ---------------------------------------------------------------- a failed worker

  predicate NotHalting(schedule: seq<Label>) {
    forall k :: 0 <= k < |schedule| ==> schedule[k] != Main(Halt) && schedule[k] != Main(ResetChild)
  }

  /** The node says it is running, and no worker will ever change that. */
  predicate Stuck(s: State) {
    && s.status == RUNNING
    && (s.main.Outside? || s.main.TickCheck? || s.main.TickAwait? || s.main.TickLock? || s.main.TickReport?
        || s.main.CompletedCheck?)
    && forall w :: w in s.workers ==> !Live(s.workers[w])
  }

  lemma StuckKept(s: State, l: Label)
    requires Stuck(s) && l != Main(Halt) && l != Main(ResetChild) && Step(s, l).Some?
    ensures Stuck(Step(s, l).value)
  {
  }

  lemma {:induction false} StuckStays(s: State, schedule: seq<Label>)
    requires Stuck(s) && NotHalting(schedule)
    ensures Stuck(Run(s, schedule))
    decreases |schedule|
  {
    hide Step, Stuck;
    if schedule != [] {
      var next := Step(s, schedule[0]);
      if next.Some? {
        StuckKept(s, schedule[0]);
        StuckStays(next.value, schedule[1..]);
      } else {
        StuckStays(s, schedule[1..]);
      }
    }
  }

  /** The worker whose tick threw leaves the status RUNNING, because setting it to IDLE throws in
      its turn; and RUNNING it stays, however often it is ticked, until it is halted. */
  lemma FailureSticks(before: seq<Label>, w: Session, outcome: Outcome, after: seq<Label>)
    requires var s := Run(INIT, before);
      w in s.workers && s.workers[w] == Catching && !s.mutexHeld && !IsHalting(s.main)
    requires NotHalting(after)
    ensures Run(INIT, before + [Worker(w, outcome)]).exptr == Some(w)
    ensures Run(INIT, before + [Worker(w, outcome)] + after).status == RUNNING
  {
    hide Run, Inv, OwnOrInherited, KeptUntilSeen;
    var s := Run(INIT, before);
    Reachable(before);
    forall v | v in s.workers ensures Live(s.workers[v]) ==> v == s.session {
      InvLive(s, v);
    }
    InvLive(s, w);
    RunConcat(INIT, before, [Worker(w, outcome)]);
    RunConcat(INIT, before + [Worker(w, outcome)], after);
    RunOn(s, Worker(w, outcome), []);
    StuckStays(StepWorker(s, w, outcome).value, after);
  }

  // ---------------------------------------------------------------- nobody waits for ever

  /** How many more steps the worker takes at most. */
  function StepsLeft(pc: WorkerPc): nat {
    match pc
    case Ticking => 4
    case Returned(_) => 3
    case Setting(_) => 2
    case Catching => 1
    case Waking => 1
    case Done => 0
  }

  function Repeat(l: Label, n: nat): seq<Label> {
    if n == 0 then [] else [l] + Repeat(l, n - 1)
  }

  predicate Waiting(pc: MainPc) {
    pc.TickAwait? || pc.HaltWait?
  }

  lemma WorkerComesNearer(s: State, w: Session, outcome: Outcome)
    requires w in s.workers && StepWorker(s, w, outcome).Some?
    ensures StepsLeft(StepWorker(s, w, outcome).value.workers[w]) < StepsLeft(s.workers[w])
  {
  }

  lemma WorkerGoesOn(s: State, w: Session, outcome: Outcome)
    requires w in s.workers && s.workers[w] != Done && !s.mutexHeld
    ensures StepWorker(s, w, outcome).Some?
  {
  }

  lemma OnlyWaits(s: State, call: Call)
    ensures StepMain(s, call) == None <==> Waiting(s.main) && s.handle.Some? && !IsDone(s, s.handle.value)
  {
  }

  lemma HandleKnown(s: State)
    requires Inv(s)
    ensures s.handle.Some? ==> s.handle.value in s.workers
    ensures s.mutexHeld <==> s.main == TickReport
  {
  }

  /** There is never a deadlock: a worker that waits for mutex_ waits for the ticking thread,
      which goes on; and the ticking thread, when it waits for a worker, waits for at most four
      steps of it, however its tick ends. */
  lemma NoDeadlock(before: seq<Label>, call: Call, outcome: Outcome)
    ensures var s := Run(INIT, before);
      forall w :: w in s.workers && s.workers[w] != Done && StepWorker(s, w, outcome) == None ==>
        StepMain(s, call).Some?
    ensures var s := Run(INIT, before);
      StepMain(s, call) == None ==>
        s.handle.Some? && StepMain(Run(s, Repeat(Worker(s.handle.value, outcome), 4)), call).Some?
  {
    hide Run, Inv, OwnOrInherited, KeptUntilSeen, StepMain, StepWorker;
    var s := Run(INIT, before);
    Reachable(before);
    HandleKnown(s);
    OnlyWaits(s, call);
    forall w | w in s.workers && s.workers[w] != Done && StepWorker(s, w, outcome) == None
      ensures s.mutexHeld
    {
      if !s.mutexHeld {
        WorkerGoesOn(s, w, outcome);
      }
    }
    if StepMain(s, call) == None {
      WaitEnds(s, s.handle.value, outcome, call, 4);
    }
  }

  lemma {:induction false} WaitEnds(s: State, w: Session, outcome: Outcome, call: Call, n: nat)
    requires Safe(s) && Waiting(s.main) && s.handle == Some(w) && w in s.workers && StepsLeft(s.workers[w]) <= n
    ensures StepMain(Run(s, Repeat(Worker(w, outcome), n)), call).Some?
    decreases n
  {
    hide Inv, OwnOrInherited, KeptUntilSeen, StepMain, StepWorker;
    HandleKnown(s);
    if n == 0 {
      OnlyWaits(s, call);
    } else {
      assert Repeat(Worker(w, outcome), n)[1..] == Repeat(Worker(w, outcome), n - 1);
      if s.workers[w] == Done {
        DoneStays(s, w, outcome);
        WaitEnds(s, w, outcome, call, n - 1);
      } else {
        WorkerGoesOn(s, w, outcome);
        WorkerComesNearer(s, w, outcome);
        WorkerFrame(s, w, outcome);
        StepKeeps(s, Worker(w, outcome));
        WaitEnds(StepWorker(s, w, outcome).value, w, outcome, call, n - 1);
      }
    }
  }

  lemma DoneStays(s: State, w: Session, outcome: Outcome)
    requires w in s.workers && s.workers[w] == Done
    ensures StepWorker(s, w, outcome) == None
  {
  }
}

/** What a session of a ThreadedAction comes to: what its worker writes, how long it stays, and
    what executeTick tells its callers, in every interleaving. */
module ThreadedResults {

  import opened ThreadedAction

  /** The thread of session w takes none of these steps. */
  predicate WithoutWorker(w: Session, schedule: seq<Label>) {
    forall k :: 0 <= k < |schedule| ==> !(schedule[k].Worker? && schedule[k].w == w)
  }

  // ---------------------------------------------------------------- one worker to a session

  /** The current session has no worker yet. */
  predicate Unlaunched(pc: MainPc) {
    match pc
    case TickClear | TickLaunch => true
    case _ => false
  }

  ghost predicate OneWorkerEach(s: State) {
    forall w: Session :: w in s.workers <==> 1 <= w <= s.session && !(w == s.session && Unlaunched(s.main))
  }

  lemma OneWorkerMain(s: State, call: Call)
    requires OneWorkerEach(s) && StepMain(s, call).Some? && (s.main == TickLaunch ==> 1 <= s.session)
    ensures OneWorkerEach(StepMain(s, call).value)
  {
  }

  lemma OneWorkerStep(s: State, l: Label)
    requires OneWorkerEach(s) && Step(s, l).Some? && (s.main == TickLaunch ==> 1 <= s.session)
    ensures OneWorkerEach(Step(s, l).value)
    ensures Step(s, l).value.main == TickLaunch ==> 1 <= Step(s, l).value.session || s.main == TickClear
  {
    match l
    case Main(call) =>
      OneWorkerMain(s, call);
    case Worker(w, outcome) =>
      hide StepWorker;
      WorkerFrame(s, w, outcome);
  }

  /** A session has been counted before its worker is launched. */
  predicate Counted(s: State) {
    Unlaunched(s.main) ==> 1 <= s.session
  }

  lemma CountedMeans(s: State)
    requires Counted(s)
    ensures s.main == TickLaunch ==> 1 <= s.session
  {
  }

  lemma InitWorkers()
    ensures OneWorkerEach(INIT) && Counted(INIT)
  {
  }

  lemma CountedStep(s: State, l: Label)
    requires Counted(s) && Step(s, l).Some?
    ensures Counted(Step(s, l).value)
  {
    if l.Worker? {
      hide StepWorker;
      WorkerFrame(s, l.w, l.outcome);
    }
  }

  lemma {:induction false} WorkersRun(s: State, schedule: seq<Label>)
    requires OneWorkerEach(s) && Counted(s)
    ensures OneWorkerEach(Run(s, schedule)) && Counted(Run(s, schedule))
    decreases |schedule|
  {
    hide Step, OneWorkerEach;
    if schedule != [] {
      var next := Step(s, schedule[0]);
      if next.Some? {
        OneWorkerStep(s, schedule[0]);
        CountedStep(s, schedule[0]);
        WorkersRun(next.value, schedule[1..]);
      } else {
        WorkersRun(s, schedule[1..]);
      }
    }
  }

  /** Every session has exactly one worker, from its launch on. */
  lemma SessionsHaveWorkers(schedule: seq<Label>)
    ensures var s := Run(INIT, schedule);
      forall w: Session :: w in s.workers <==>
        1 <= w <= s.session && !(w == s.session && (s.main == TickClear || s.main == TickLaunch))
  {
    hide Run;
    WorkersRun(INIT, schedule);
  }

  // ---------------------------------------------------------------- steps of others

  lemma MainLeaves(s: State, call: Call, w: Session)
    requires w in s.workers && StepMain(s, call).Some? && (s.main == TickLaunch ==> s.session !in s.workers)
    ensures var t := StepMain(s, call).value; w in t.workers && t.workers[w] == s.workers[w]
  {
  }

  lemma LaunchesNew(s: State)
    requires Inv(s) && s.main == TickLaunch
    ensures s.session !in s.workers
  {
  }

  /** Nobody but the worker itself moves it. */
  lemma OthersLeave(s: State, l: Label, w: Session)
    requires Inv(s) && w in s.workers && Step(s, l).Some? && !(l.Worker? && l.w == w)
    ensures var t := Step(s, l).value; w in t.workers && t.workers[w] == s.workers[w]
  {
    hide Inv, StepMain, StepWorker;
    match l
    case Main(call) =>
      if s.main == TickLaunch {
        LaunchesNew(s);
      }
      MainLeaves(s, call, w);
    case Worker(v, outcome) =>
      WorkerFrame(s, v, outcome);
  }

  lemma {:induction false} OthersRun(s: State, w: Session, schedule: seq<Label>)
    requires Safe(s) && w in s.workers && WithoutWorker(w, schedule)
    ensures var t := Run(s, schedule); w in t.workers && t.workers[w] == s.workers[w]
    decreases |schedule|
  {
    hide Step, Inv, OwnOrInherited, KeptUntilSeen;
    if schedule != [] {
      var next := Step(s, schedule[0]);
      if next.Some? {
        StepKeeps(s, schedule[0]);
        OthersLeave(s, schedule[0], w);
        OthersRun(next.value, w, schedule[1..]);
      } else {
        OthersRun(s, w, schedule[1..]);
      }
    }
  }

  // ---------------------------------------------------------------- what a worker writes

  predicate NoneLive(workers: map<Session, WorkerPc>) {
    forall w :: w in workers ==> !Live(workers[w])
  }

  /** From here on, nothing that happens changes the status but a reset. */
  predicate Settled(s: State, st: NodeStatus) {
    && s.status == st
    && NoneLive(s.workers)
    && !s.main.TickRunning? && !s.main.TickClear? && !s.main.TickLaunch?
  }

  /** The step with which the ticking thread sets the status to IDLE. */
  predicate Resets(s: State, l: Label) {
    l.Main? && (s.main.HaltReset? || s.main.ResetFinal?)
  }

  /** The ticking thread resets the node nowhere in this run. */
  predicate ResetFree(s: State, schedule: seq<Label>)
    decreases |schedule|
  {
    if schedule == [] then true
    else
      var next := Step(s, schedule[0]);
      !Resets(s, schedule[0]) && ResetFree(if next.Some? then next.value else s, schedule[1..])
  }

  lemma NobodyElseLive(s: State, w: Session)
    requires Inv(s) && w in s.workers && Live(s.workers[w])
    ensures forall v :: v in s.workers && Live(s.workers[v]) ==> v == w
    ensures s.status == RUNNING && !Quiet(s.main)
  {
  }

  lemma Looks(s: State, w: Session, outcome: Outcome)
    requires w in s.workers && s.workers[w].Returned? && !s.haltRequested
    ensures StepWorker(s, w, outcome) == Some(MoveWorker(s, w, Setting(s.workers[w].st)))
  {
  }

  lemma Writes(s: State, w: Session, outcome: Outcome)
    requires Inv(s) && w in s.workers && s.workers[w].Setting? && s.workers[w].st != IDLE
    ensures StepWorker(s, w, outcome).Some?
    ensures var t := StepWorker(s, w, outcome).value;
      w in t.workers && t.workers[w] == Waking && Settled(t, s.workers[w].st)
  {
    NobodyElseLive(s, w);
    var t := StepWorker(s, w, outcome).value;
    forall v | v in t.workers ensures !Live(t.workers[v]) {
      assert v != w ==> v in s.workers && t.workers[v] == s.workers[v];
    }
  }

  lemma Answers(s: State, w: Session, st: NodeStatus)
    requires w in s.workers && s.workers[w] == Ticking
    ensures StepWorker(s, w, Returns(st)) == Some(MoveWorker(s, w, Returned(st)))
  {
  }

  /** If the tick of worker w returns st, and the worker finds no halt requested, then the status
      is st when the worker has set it, and that settles it: whatever else happened before the
      tick, between its end and the look, and between the look and the writing. */
  lemma ReturnedIsWritten(before: seq<Label>, w: Session, st: NodeStatus, during: seq<Label>, look: Outcome,
                          later: seq<Label>, write: Outcome)
    requires var s := Run(INIT, before); w in s.workers && s.workers[w] == Ticking
    requires st != IDLE && WithoutWorker(w, during) && WithoutWorker(w, later)
    requires !Run(INIT, before + [Worker(w, Returns(st))] + during).haltRequested
    ensures var t := Run(INIT, before + [Worker(w, Returns(st))] + during + [Worker(w, look)] + later
                               + [Worker(w, write)]);
      w in t.workers && t.workers[w] == Waking && Settled(t, st)
  {
    hide Run, Inv, OwnOrInherited, KeptUntilSeen, StepWorker, Settled;
    var answered := before + [Worker(w, Returns(st))];
    var looked := answered + during + [Worker(w, look)];
    Answers(Run(INIT, before), w, st);
    Then(before, Worker(w, Returns(st)));
    OthersBetween(answered, w, during);
    Looks(Run(INIT, answered + during), w, look);
    Then(answered + during, Worker(w, look));
    OthersBetween(looked, w, later);
    Reachable(looked + later);
    var t := Run(INIT, looked + later);
    assert t.workers[w] == Setting(st);
    Writes(t, w, write);
    assert Step(t, Worker(w, write)) == StepWorker(t, w, write);
    Then(looked + later, Worker(w, write));
  }

  lemma Then(before: seq<Label>, l: Label)
    requires Step(Run(INIT, before), l).Some?
    ensures Run(INIT, before + [l]) == Step(Run(INIT, before), l).value
  {
    hide Step;
    RunConcat(INIT, before, [l]);
    RunOn(Run(INIT, before), l, []);
  }

  lemma OthersBetween(before: seq<Label>, w: Session, during: seq<Label>)
    requires w in Run(INIT, before).workers && WithoutWorker(w, during)
    ensures w in Run(INIT, before + during).workers
    ensures Run(INIT, before + during).workers[w] == Run(INIT, before).workers[w]
  {
    hide Run, Safe;
    Reachable(before);
    OthersRun(Run(INIT, before), w, during);
    RunConcat(INIT, before, during);
  }

  // ---------------------------------------------------------------- how long it stays

  lemma SettledWorker(s: State, w: Session, outcome: Outcome, st: NodeStatus)
    requires Settled(s, st) && w in s.workers && StepWorker(s, w, outcome).Some?
    ensures Settled(StepWorker(s, w, outcome).value, st)
  {
  }

  lemma SettledMain(s: State, call: Call, st: NodeStatus)
    requires Settled(s, st) && st != IDLE && !s.main.HaltReset? && !s.main.ResetFinal? && StepMain(s, call).Some?
    ensures Settled(StepMain(s, call).value, st)
  {
    hide NoneLive;
  }

  lemma SettledKept(s: State, l: Label, st: NodeStatus)
    requires Settled(s, st) && st != IDLE && !Resets(s, l) && Step(s, l).Some?
    ensures Settled(Step(s, l).value, st)
  {
    if l.Worker? {
      SettledWorker(s, l.w, l.outcome, st);
    } else {
      SettledMain(s, l.call, st);
    }
  }

  lemma ReportsIt(s: State, l: Label, st: NodeStatus)
    requires Settled(s, st) && Step(s, l).Some?
    ensures var t := Step(s, l).value;
      t.result == s.result || t.result == Some(Reported(st)) || (t.result.Some? && t.result.value.Rethrew?)
    ensures s.exptr == None ==>
      Step(s, l).value.exptr == None
        && (Step(s, l).value.result == s.result || Step(s, l).value.result == Some(Reported(st)))
  {
  }

  /** What a worker has written stays until the ticking thread resets the node: executeTick starts
      no session before that. Without an exception executeTick reports it, and nothing else. */
  lemma {:induction false} ResultStays(s: State, st: NodeStatus, after: seq<Label>)
    requires Settled(s, st) && st != IDLE && ResetFree(s, after)
    ensures Settled(Run(s, after), st)
    ensures s.exptr == None ==>
      Run(s, after).exptr == None
        && (Run(s, after).result == s.result || Run(s, after).result == Some(Reported(st)))
    decreases |after|
  {
    hide Step, Settled, Resets;
    if after != [] {
      var next := Step(s, after[0]);
      if next.Some? {
        SettledKept(s, after[0], st);
        ReportsIt(s, after[0], st);
        ResultStays(next.value, st, after[1..]);
      } else {
        ResultStays(s, st, after[1..]);
      }
    }
  }

  /** A call of executeTick on a node that has an answer and no exception reports the answer. */
  lemma ResultReported(s: State, st: NodeStatus, call: Call)
    requires Settled(s, st) && st != IDLE && s.exptr == None && s.main == Outside && !s.mutexHeld
    ensures var c := Main(call);
      Run(s, [Main(ExecuteTick), c, c, c]) == s.(starter := false, result := Some(Reported(st)))
  {
    var c := Main(call);
    var t := s.(main := TickLock, starter := false);
    RunOn(s, Main(ExecuteTick), [c, c, c]);
    RunOn(s.(main := TickCheck), c, [c, c]);
    RunOn(t, c, [c]);
    RunOn(t.(main := TickReport, mutexHeld := true), c, []);
    assert [Main(ExecuteTick), c, c, c] == [Main(ExecuteTick)] + [c, c, c];
    assert [c, c, c] == [c] + [c, c];
  }

  /** If the node has stored an exception, the next executeTick throws it, once. */
  lemma ThrownOnce(s: State, st: NodeStatus, call: Call)
    requires Settled(s, st) && st != IDLE && s.exptr.Some? && s.main == Outside
    ensures var c := Main(call);
      Run(s, [Main(ExecuteTick), c, c])
        == s.(starter := false, exptr := None, result := Some(Rethrew(s.exptr.value)))
  {
    var c := Main(call);
    RunOn(s, Main(ExecuteTick), [c, c]);
    RunOn(s.(main := TickCheck), c, [c]);
    RunOn(s.(main := TickLock, starter := false), c, []);
    assert [Main(ExecuteTick), c, c] == [Main(ExecuteTick)] + [c, c];
  }

  // ---------------------------------------------------------------- halted, or failed

  /** The worker is past its look and will not write the status, or it will find halt requested. */
  predicate Silenced(s: State, w: Session) {
    w in s.workers &&
      match s.workers[w]
      case Ticking | Returned(_) => s.haltRequested
      case Setting(_) => false
      case Catching | Waking | Done => true
  }

  lemma SilencedMain(s: State, call: Call, w: Session)
    requires Silenced(s, w) && LiveOk(s, w) && StepMain(s, call).Some?
    requires s.main == TickLaunch ==> s.session !in s.workers
    ensures Silenced(StepMain(s, call).value, w)
  {
  }

  lemma SilencedWorker(s: State, v: Session, outcome: Outcome, w: Session)
    requires Silenced(s, w) && v in s.workers && StepWorker(s, v, outcome).Some?
    ensures Silenced(StepWorker(s, v, outcome).value, w)
    ensures v == w ==> StepWorker(s, v, outcome).value.status == s.status
  {
  }

  lemma SilencedKept(s: State, l: Label, w: Session)
    requires Safe(s) && Silenced(s, w) && Step(s, l).Some?
    ensures Silenced(Step(s, l).value, w)
    ensures l.Worker? && l.w == w ==> Step(s, l).value.status == s.status
  {
    hide Inv, OwnOrInherited, KeptUntilSeen, StepMain, StepWorker, LiveOk;
    InvLive(s, w);
    hide Silenced;
    match l
    case Main(call) =>
      if s.main == TickLaunch {
        LaunchesNew(s);
      }
      SilencedMain(s, call, w);
    case Worker(v, outcome) =>
      SilencedWorker(s, v, outcome, w);
  }

  lemma {:induction false} SilencedRun(s: State, schedule: seq<Label>, w: Session)
    requires Safe(s) && Silenced(s, w)
    ensures Silenced(Run(s, schedule), w)
    decreases |schedule|
  {
    hide Step, Safe, Silenced;
    if schedule != [] {
      var next := Step(s, schedule[0]);
      if next.Some? {
        StepKeeps(s, schedule[0]);
        SilencedKept(s, schedule[0], w);
        SilencedRun(next.value, schedule[1..], w);
      } else {
        SilencedRun(s, schedule[1..], w);
      }
    }
  }

  /** Halt has been called and goes on to set halt_requested_. */
  lemma FlagRaised(s: State, call: Call)
    requires s.main.HaltFlag?
    ensures StepMain(s, call).Some?
    ensures StepMain(s, call).value == s.(haltRequested := true, main := HaltWait(s.main.reset))
  {
  }

  lemma HaltCalled(s: State)
    requires s.main == Outside
    ensures StepMain(s, Halt) == Some(s.(main := HaltFlag(false)))
  {
  }

  /** Once halt has gone through its first step, a worker that has not looked yet never changes
      the status: not the one its tick returns, nor any other. */
  lemma HaltSilences(before: seq<Label>, call: Call, w: Session, after: seq<Label>, outcome: Outcome)
    requires var s := Run(INIT, before);
      s.main == Outside && w in s.workers && (s.workers[w] == Ticking || s.workers[w].Returned?)
    ensures var t := Run(INIT, before + [Main(Halt)] + [Main(call)] + after);
      && w in t.workers
      && (StepWorker(t, w, outcome).Some? ==> StepWorker(t, w, outcome).value.status == t.status)
  {
    hide Run, StepMain, StepWorker, Inv, OwnOrInherited, KeptUntilSeen;
    var s := Run(INIT, before);
    HaltCalled(s);
    Then(before, Main(Halt));
    var t := Run(INIT, before + [Main(Halt)]);
    FlagRaised(t, call);
    Then(before + [Main(Halt)], Main(call));
    var u := Run(INIT, before + [Main(Halt)] + [Main(call)]);
    Reachable(before + [Main(Halt)] + [Main(call)]);
    SilencedRun(u, after, w);
    RunConcat(INIT, before + [Main(Halt)] + [Main(call)], after);
    if StepWorker(Run(u, after), w, outcome).Some? {
      SilencedWorker(Run(u, after), w, outcome, w);
    }
  }

  /** A tick that ends in an exception leaves the status alone. */
  lemma ThrowSilences(s: State, w: Session, outcome: Outcome)
    requires w in s.workers && s.workers[w] == Ticking && !outcome.Returns?
    ensures var t := Step(s, Worker(w, outcome)).value;
      && Silenced(t, w) && t.status == s.status && t.exptr == s.exptr
      && (outcome == ThrowsOther ==> t.workers[w] == Done)
      && (outcome == Throws ==> t.workers[w] == Catching)
  {
  }

  /** A tick that throws a standard exception has it stored as soon as the ticking thread lets go
      of mutex_; any other exception is lost with the future. Neither ever changes the status. */
  lemma ThrowIsStored(before: seq<Label>, w: Session, outcome: Outcome, during: seq<Label>, next: Outcome)
    requires var s := Run(INIT, before); w in s.workers && s.workers[w] == Ticking
    requires !outcome.Returns? && WithoutWorker(w, during)
    ensures var t := Run(INIT, before + [Worker(w, outcome)] + during);
      && w in t.workers && Silenced(t, w)
      && (outcome == Throws && !t.mutexHeld ==>
            StepWorker(t, w, next) == Some(MoveWorker(t.(exptr := Some(w)), w, Done)))
      && (outcome == ThrowsOther ==> StepWorker(t, w, next) == None)
  {
    hide Run, Inv, OwnOrInherited, KeptUntilSeen, Silenced;
    ThrowSilences(Run(INIT, before), w, outcome);
    Then(before, Worker(w, outcome));
    OthersBetween(before + [Worker(w, outcome)], w, during);
    Reachable(before + [Worker(w, outcome)]);
    SilencedRun(Run(INIT, before + [Worker(w, outcome)]), during, w);
    RunConcat(INIT, before + [Worker(w, outcome)], during);
  }

  // ---------------------------------------------------------------- the start of a session

  /** The current session is n, nobody has asked it to halt, and nobody is about to. */
  predicate Unasked(s: State, n: Session) {
    && s.session == n
    && (s.main == TickClear || !s.haltRequested)
    && !s.main.TickRunning? && !s.main.HaltFlag? && !s.main.HaltWait? && !s.main.HaltDrop? && !s.main.HaltReset?
    && !s.main.ResetCheck?
  }

  lemma UnaskedKept(s: State, l: Label, n: Session)
    requires Unasked(s, n) && l != Main(Halt) && l != Main(ResetChild) && Step(s, l).Some?
    ensures Unasked(Step(s, l).value, n) || Step(s, l).value.main == TickRunning
  {
    if l.Worker? {
      hide StepWorker;
      WorkerFrame(s, l.w, l.outcome);
    }
  }

  /** Session n is about to start, or goes on without having been asked to halt, or its worker has
      ended. */
  predicate Unheeded(s: State, n: Session) {
    || (s.main == TickRunning && s.session + 1 == n)
    || Unasked(s, n)
    || (n in s.workers && !Live(s.workers[n]))
  }

  lemma StartsUnasked(s: State, l: Label, n: Session)
    requires s.main == TickRunning && s.session + 1 == n && Step(s, l).Some?
    ensures var t := Step(s, l).value; Unasked(t, n) || (t.main == TickRunning && t.session + 1 == n)
  {
    if l.Worker? {
      hide StepWorker;
      WorkerFrame(s, l.w, l.outcome);
    }
  }

  lemma EndedStays(s: State, l: Label, w: Session)
    requires Inv(s) && w in s.workers && !Live(s.workers[w]) && Step(s, l).Some?
    ensures var t := Step(s, l).value; w in t.workers && !Live(t.workers[w])
  {
    if !(l.Worker? && l.w == w) {
      hide Inv, Step;
      OthersLeave(s, l, w);
    }
  }

  lemma RestartsEnded(s: State, l: Label, n: Session)
    requires Inv(s) && OneWorkerEach(s) && Unasked(s, n) && 1 <= n && Step(s, l).Some?
    requires Step(s, l).value.main == TickRunning
    ensures n in s.workers && !Live(s.workers[n])
  {
    if l.Worker? {
      hide StepWorker;
      WorkerFrame(s, l.w, l.outcome);
    } else {
      assert s.main == TickCheck && s.status == IDLE;
      assert n in s.workers;
      InvLive(s, n);
    }
  }

  lemma UnheededKept(s: State, l: Label, n: Session)
    requires Inv(s) && OneWorkerEach(s) && Unheeded(s, n) && 1 <= n && Step(s, l).Some?
    requires l != Main(Halt) && l != Main(ResetChild)
    ensures Unheeded(Step(s, l).value, n)
  {
    hide Step, Inv, OneWorkerEach, Unasked, Live;
    if n in s.workers && !Live(s.workers[n]) {
      EndedStays(s, l, n);
    } else if Unasked(s, n) {
      UnaskedKept(s, l, n);
      if !Unasked(Step(s, l).value, n) {
        RestartsEnded(s, l, n);
      }
    } else {
      StartsUnasked(s, l, n);
    }
  }

  lemma {:induction false} UnheededRun(s: State, n: Session, schedule: seq<Label>)
    requires Safe(s) && OneWorkerEach(s) && Counted(s) && Unheeded(s, n) && 1 <= n && NotHalting(schedule)
    ensures Unheeded(Run(s, schedule), n)
    decreases |schedule|
  {
    hide Step, Inv, OwnOrInherited, KeptUntilSeen, OneWorkerEach, Counted, Unheeded;
    if schedule != [] {
      var next := Step(s, schedule[0]);
      if next.Some? {
        StepKeeps(s, schedule[0]);
        CountedMeans(s);
        OneWorkerStep(s, schedule[0]);
        CountedStep(s, schedule[0]);
        UnheededKept(s, schedule[0], n);
        UnheededRun(next.value, n, schedule[1..]);
      } else {
        UnheededRun(s, n, schedule[1..]);
      }
    }
  }

  lemma UnlaunchedHasNone(s: State)
    requires Inv(s) && s.main == TickClear
    ensures s.session !in s.workers
  {
  }

  /** A halt requested in an earlier session is forgotten: unless halt or the reset of a running
      child is called in session n itself, its worker finds halt_requested_ clear. */
  lemma HaltForgotten(before: seq<Label>, during: seq<Label>)
    requires Run(INIT, before).main == TickRunning && NotHalting(during)
    ensures var n := Run(INIT, before).session + 1; var t := Run(INIT, before + during);
      n in t.workers && Live(t.workers[n]) ==> !t.haltRequested
  {
    hide Run, Inv, OwnOrInherited, KeptUntilSeen, OneWorkerEach, Live;
    var s := Run(INIT, before);
    var n := s.session + 1;
    var t := Run(INIT, before + during);
    Reachable(before);
    InitWorkers();
    WorkersRun(INIT, before);
    UnheededRun(s, n, during);
    RunConcat(INIT, before, during);
    Reachable(before + during);
    if n in t.workers && Live(t.workers[n]) {
      StillCurrent(t, n);
      if t.main == TickClear {
        UnlaunchedHasNone(t);
      }
    }
  }

  lemma StillCurrent(s: State, w: Session)
    requires Inv(s) && w in s.workers && Live(s.workers[w])
    ensures w == s.session && s.main != TickRunning
  {
    InvLive(s, w);
  }

  /** executeTick starts a session exactly when the node is idle. */
  lemma StartsIfIdle(s: State, call: Call)
    requires s.main == Outside
    ensures Run(s, [Main(ExecuteTick), Main(call)]).main == TickRunning <==> s.status == IDLE
    ensures Run(s, [Main(ExecuteTick), Main(call)]).session == s.session
  {
    RunOn(s, Main(ExecuteTick), [Main(call)]);
    RunOn(s.(main := TickCheck), Main(call), []);
  }

  /** Of the nodes that are not running, those that have succeeded or failed are reset, and no
      others. */
  lemma CompletedAreReset(s: State, call: Call)
    requires s.main == Outside
    ensures var t := Run(s, [Main(ResetCompleted), Main(call)]);
      if s.status == SUCCESS || s.status == FAILURE
      then t.main == ResetFinal && StepMain(t, call) == Some(s.(status := IDLE))
      else t == s
  {
    RunOn(s, Main(ResetCompleted), [Main(call)]);
    RunOn(s.(main := CompletedCheck), Main(call), []);
  }

  /** resetChild halts a running node and then resets it; any other it just resets. */
  lemma ChildIsReset(s: State, call: Call)
    requires s.main == Outside && (s.status == RUNNING ==> s.handle.Some? ==> IsDone(s, s.handle.value))
    ensures var c := Main(call);
      if s.status == RUNNING
      then Run(s, [Main(ResetChild)] + ([c] + ([c] + ([c] + ([c] + ([c] + ([c] + [])))))))
        == s.(haltRequested := true, handle := None, status := IDLE)
      else Run(s, [Main(ResetChild)] + ([c] + ([c] + []))) == s.(status := IDLE)
  {
    hide Run, StepMain;
    if s.status == RUNNING {
      RunningIsReset(s, call);
    } else {
      OtherIsReset(s, call);
    }
  }

  lemma RunningIsReset(s: State, call: Call)
    requires s.main == Outside && s.status == RUNNING && (s.handle.Some? ==> IsDone(s, s.handle.value))
    ensures var c := Main(call);
      Run(s, [Main(ResetChild)] + ([c] + ([c] + ([c] + ([c] + ([c] + ([c] + [])))))))
        == s.(haltRequested := true, handle := None, status := IDLE)
  {
    hide Run;
    var c := Main(call);
    RunOn(s, Main(ResetChild), [c] + ([c] + ([c] + ([c] + ([c] + ([c] + []))))));
    RunOn(s.(main := ResetCheck), c, [c] + ([c] + ([c] + ([c] + ([c] + [])))));
    RunOn(s.(main := HaltFlag(true)), c, [c] + ([c] + ([c] + ([c] + []))));
    HaltingEnds(s.(haltRequested := true), call);
  }

  lemma OtherIsReset(s: State, call: Call)
    requires s.main == Outside && s.status != RUNNING
    ensures var c := Main(call); Run(s, [Main(ResetChild)] + ([c] + ([c] + []))) == s.(status := IDLE)
  {
    hide Run;
    var c := Main(call);
    RunOn(s, Main(ResetChild), [c] + ([c] + []));
    RunOn(s.(main := ResetCheck), c, [c] + []);
    RunOn(s.(main := ResetFinal), c, []);
    RunNothing(s.(status := IDLE));
  }

  lemma HaltingEnds(t: State, call: Call)
    requires t.main == Outside && (t.handle.Some? ==> IsDone(t, t.handle.value))
    ensures var c := Main(call);
      Run(t.(main := HaltWait(true)), [c] + ([c] + ([c] + ([c] + [])))) == t.(handle := None, status := IDLE)
  {
    hide Run;
    var c := Main(call);
    RunOn(t.(main := HaltWait(true)), c, [c] + ([c] + ([c] + [])));
    RunOn(t.(main := HaltDrop(true)), c, [c] + ([c] + []));
    RunOn(t.(handle := None, main := HaltReset(true)), c, [c] + []);
    RunOn(t.(handle := None, status := IDLE, main := ResetFinal), c, []);
    RunNothing(t.(handle := None, status := IDLE));
  }
}

/** What the calls of minicoro amount to: a stack of coroutines, of which the top runs, and two
    sets. No states and no links: those are what the library keeps to get this. */
module CoroutineScheduler {

  import opened Coroutines

  /** Who runs and who waits for whom, the running one first; who can be resumed; who has ended. */
  datatype Threads = Threads(stack: seq<Coroutine>, ready: set<Coroutine>, ended: set<Coroutine>)

  /** What each call answers. */
  ghost function Answer(a: Threads, op: Op): McoResult {
    match op
    case Create(_) | Finish => SUCCESS
    case Resume(co) =>
      if co == null then INVALID_COROUTINE else if co in a.ready then SUCCESS else NOT_SUSPENDED
    case Yield(co, stackOk) =>
      if co == null then INVALID_COROUTINE
      else if !stackOk then STACK_OVERFLOW
      else if a.stack != [] && a.stack[0] == co then SUCCESS
      else NOT_RUNNING
    case Uninit(co) =>
      if co == null then INVALID_COROUTINE else if co in a.ready + a.ended then SUCCESS else INVALID_OPERATION
    case Destroy(co, freeable) =>
      if co == null then INVALID_COROUTINE
      else if co !in a.ready + a.ended then INVALID_OPERATION
      else if freeable then SUCCESS
      else INVALID_POINTER
  }

  /** What a call that succeeds does; destroying what cannot be freed still ends it. */
  ghost function Serve(a: Threads, op: Op): Threads {
    if Answer(a, op) != SUCCESS && Answer(a, op) != INVALID_POINTER then a
    else
      match op
      case Create(novel) => a.(ready := a.ready + {novel})
      case Resume(co) => Threads([co] + a.stack, a.ready - {co}, a.ended)
      case Yield(co, _) => Threads(a.stack[1..], a.ready + {co}, a.ended)
      case Finish => if a.stack == [] then a else Threads(a.stack[1..], a.ready, a.ended + {a.stack[0]})
      case Uninit(co) => Threads(a.stack, a.ready - {co}, a.ended + {co})
      case Destroy(co, freeable) =>
        Threads(a.stack, a.ready - {co}, if freeable then a.ended - {co} else a.ended + {co})
  }

  ghost predicate Shows(s: State, a: Threads) {
    && IsChain(s, a.stack)
    && a.ready == (set c | c in s.cos && s.cos[c].state == SUSPENDED)
    && a.ended == (set c | c in s.cos && s.cos[c].state == DEAD)
  }

  lemma ResumeShows(s: State, a: Threads, co: Coroutine)
    requires Shows(s, a) && co in a.ready
    ensures Linked(s) && Shows(Step(s, Resume(co)).0, Serve(a, Resume(co))) && Step(s, Resume(co)).1 == SUCCESS
  {
    hide IsChain;
    StepKeeps(s, a.stack, Resume(co));
    OffChain(s, a.stack, co);
    if a.stack != [] {
      OnlyFirstRuns(s, a.stack, a.stack[0]);
    }
  }

  lemma OffChain(s: State, chain: seq<Coroutine>, co: Coroutine)
    requires IsChain(s, chain) && co in s.cos && (s.cos[co].state == SUSPENDED || s.cos[co].state == DEAD)
    ensures co !in chain && s.cos[co].prevCo == null
    ensures s.current == Next(chain, 0) && (chain != [] ==> chain[0] in s.cos)
  {
  }

  lemma TopLeaves(s: State, a: Threads, op: Op)
    requires Shows(s, a) && a.stack != []
    requires op == Finish || op == Yield(a.stack[0], true)
    ensures Linked(s) && Enabled(s, op) && Shows(Step(s, op).0, Serve(a, op)) && Step(s, op).1 == SUCCESS
  {
    hide IsChain;
    var co := a.stack[0];
    ChainLink(s, a.stack, 0);
    ChainLink(s, a.stack, 1);
    OnlyFirstRuns(s, a.stack, co);
    StepKeeps(s, a.stack, op);
    if |a.stack| > 1 {
      OnlyFirstRuns(s, a.stack, a.stack[1]);
      Distinct(s, a.stack);
    }
  }

  lemma Distinct(s: State, chain: seq<Coroutine>)
    requires IsChain(s, chain) && |chain| > 1
    ensures chain[0] != chain[1]
  {
  }

  lemma UninitShows(s: State, a: Threads, co: Coroutine, freeable: bool)
    requires Shows(s, a) && co in s.cos
    ensures Linked(s)
    ensures Shows(Step(s, Uninit(co)).0, Serve(a, Uninit(co))) && Step(s, Uninit(co)).1 == Answer(a, Uninit(co))
    ensures Shows(Step(s, Destroy(co, freeable)).0, Serve(a, Destroy(co, freeable)))
    ensures Step(s, Destroy(co, freeable)).1 == Answer(a, Destroy(co, freeable))
  {
    hide IsChain;
    StepKeeps(s, a.stack, Uninit(co));
    StepKeeps(s, a.stack, Destroy(co, freeable));
  }

  lemma NothingUninit(s: State)
    ensures StepUninit(s, null) == (s, INVALID_COROUTINE)
  {
  }

  lemma ShowsChain(s: State, a: Threads)
    requires Shows(s, a)
    ensures IsChain(s, a.stack)
  {
  }

  /** Every call does to the states and links of the coroutines what it should do to the stack and
      the sets, and it answers accordingly. */
  lemma StepServes(s: State, a: Threads, op: Op)
    requires Shows(s, a) && Enabled(s, op)
    ensures Linked(s) && Shows(Step(s, op).0, Serve(a, op)) && Step(s, op).1 == Answer(a, op)
  {
    hide IsChain, JumpIn, JumpOut, StepUninit;
    ChainLinked(s, a.stack);
    match op
    case Create(novel) => StepKeeps(s, a.stack, op);
    case Resume(co) =>
      if co != null && co in a.ready {
        ResumeShows(s, a, co);
      }
    case Yield(co, stackOk) =>
      if co != null && stackOk {
        OnlyFirstRuns(s, a.stack, co);
        if a.stack != [] && a.stack[0] == co {
          TopLeaves(s, a, op);
        }
      }
    case Finish =>
      ChainHead(s, a.stack);
      TopLeaves(s, a, op);
    case Uninit(co) =>
      if co != null {
        UninitShows(s, a, co, true);
      } else {
        NothingUninit(s);
      }
    case Destroy(co, freeable) =>
      if co != null {
        UninitShows(s, a, co, freeable);
      } else {
        NothingUninit(s);
      }
  }

  ghost function ServeAll(a: Threads, ops: seq<Op>): Threads
    decreases |ops|
  {
    if ops == [] then a else ServeAll(Serve(a, ops[0]), ops[1..])
  }

  /** So does every run. */
  lemma {:induction false} RunServes(s: State, a: Threads, ops: seq<Op>)
    requires Shows(s, a) && ValidRun(s, a.stack, ops)
    ensures Shows(Run(s, a.stack, ops).0, ServeAll(a, ops))
    decreases |ops|
  {
    hide Step, Serve, Shows, IsChain;
    ShowsChain(s, a);
    if ops != [] {
      StepKeeps(s, a.stack, ops[0]);
      StepServes(s, a, ops[0]);
      var t := Step(s, ops[0]).0;
      var b := Serve(a, ops[0]);
      ShowsChain(t, b);
      ChainUnique(t, b.stack, ChainAfter(s, a.stack, ops[0]));
      RunServes(t, b, ops[1..]);
    }
  }
}

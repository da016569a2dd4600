/** Coroutines (minicoro.h): how resuming and yielding nest on one thread, and how the block of a
    coroutine is laid out. A context switch is the end of the step that makes it. */
module Coroutines {

  datatype CoState = DEAD | NORMAL | RUNNING | SUSPENDED

  datatype McoResult =
    | SUCCESS | INVALID_COROUTINE | INVALID_OPERATION | INVALID_POINTER | NOT_SUSPENDED | NOT_RUNNING | STACK_OVERFLOW

  /** The fields of a coroutine that the switches change. */
  datatype Co = Co(state: CoState, prevCo: Coroutine?)

  /** The coroutines of a thread that were not freed, and mco_current_co. */
  datatype State = State(cos: map<Coroutine, Co>, current: Coroutine?)

  // ---------------------------------------------------------------- the steps

  predicate CanJumpIn(s: State, co: Coroutine) {
    co in s.cos && (s.current != null ==> s.current in s.cos)
  }

  /** _mco_prepare_jumpin: what was running becomes normal and is remembered. */
  function JumpIn(s: State, co: Coroutine): State
    requires CanJumpIn(s, co)
  {
    var cos := s.cos[co := s.cos[co].(prevCo := s.current)];
    State(if s.current == null then cos else cos[s.current := cos[s.current].(state := NORMAL)], co)
  }

  predicate CanJumpOut(s: State, co: Coroutine) {
    co in s.cos && (s.cos[co].prevCo != null ==> s.cos[co].prevCo in s.cos)
  }

  /** _mco_prepare_jumpout: what was remembered runs again. */
  function JumpOut(s: State, co: Coroutine): State
    requires CanJumpOut(s, co)
  {
    var prev := s.cos[co].prevCo;
    var cos := s.cos[co := s.cos[co].(prevCo := null)];
    State(if prev == null then cos else cos[prev := cos[prev].(state := RUNNING)], prev)
  }

  function SetState(s: State, co: Coroutine, st: CoState): State
    requires co in s.cos
  {
    s.(cos := s.cos[co := s.cos[co].(state := st)])
  }

  /** A call, with what it depends on besides the coroutines: whether the check of the stack
      passes, whether there is a callback to free the block. */
  datatype Op =
    | Create(novel: Coroutine)
    | Resume(co: Coroutine?)
    | Yield(co: Coroutine?, stackOk: bool)
    | Finish                                  // the running coroutine's function returns
    | Uninit(co: Coroutine?)
    | Destroy(co: Coroutine?, freeable: bool)

  /** What is meant to be called: a coroutine that was created and not freed, and the function of
      a coroutine that runs. */
  predicate Enabled(s: State, op: Op) {
    match op
    case Create(novel) => novel !in s.cos
    case Resume(co) => co != null ==> co in s.cos
    case Yield(co, _) => co != null ==> co in s.cos
    case Finish => s.current != null
    case Uninit(co) => co != null ==> co in s.cos
    case Destroy(co, _) => co != null ==> co in s.cos
  }

  /** No pointer leads to a block that was freed. */
  ghost predicate Linked(s: State) {
    && (s.current != null ==> s.current in s.cos)
    && forall c :: c in s.cos && s.cos[c].prevCo != null ==> s.cos[c].prevCo in s.cos
  }

  function StepUninit(s: State, co: Coroutine?): (State, McoResult)
    requires co != null ==> co in s.cos
  {
    if co == null then (s, INVALID_COROUTINE)
    else if s.cos[co].state != SUSPENDED && s.cos[co].state != DEAD then (s, INVALID_OPERATION)
    else (SetState(s, co, DEAD), SUCCESS)
  }

  function Step(s: State, op: Op): (State, McoResult)
    requires Linked(s) && Enabled(s, op)
  {
    match op
    case Create(novel) => (s.(cos := s.cos[novel := Co(SUSPENDED, null)]), SUCCESS)
    case Resume(co) =>
      if co == null then (s, INVALID_COROUTINE)
      else if s.cos[co].state != SUSPENDED then (s, NOT_SUSPENDED)
      else (JumpIn(SetState(s, co, RUNNING), co), SUCCESS)
    case Yield(co, stackOk) =>
      if co == null then (s, INVALID_COROUTINE)
      else if !stackOk then (s, STACK_OVERFLOW)
      else if s.cos[co].state != RUNNING then (s, NOT_RUNNING)
      else (JumpOut(SetState(s, co, SUSPENDED), co), SUCCESS)
    case Finish => (JumpOut(SetState(s, s.current, DEAD), s.current), SUCCESS)
    case Uninit(co) => StepUninit(s, co)
    case Destroy(co, freeable) =>
      var (t, r) := StepUninit(s, co);
      if r != SUCCESS then (t, r)
      else if !freeable then (t, INVALID_POINTER)
      else (t.(cos := t.cos - {co}), SUCCESS)
  }

  // ---------------------------------------------------------------- the chain

  /** The coroutines that wait for each other, the running one first: the chain of prev_co. */
  ghost predicate IsChain(s: State, chain: seq<Coroutine>) {
    && s.current == Next(chain, 0)
    && (forall i :: 0 <= i < |chain| ==> chain[i] in s.cos && s.cos[chain[i]].prevCo == Next(chain, i + 1))
    && (forall i :: 0 <= i < |chain| ==> s.cos[chain[i]].state == if i == 0 then RUNNING else NORMAL)
    && (forall i, j :: 0 <= i < j < |chain| ==> chain[i] != chain[j])
    && forall c :: c in s.cos && c !in chain ==>
         (s.cos[c].state == SUSPENDED || s.cos[c].state == DEAD) && s.cos[c].prevCo == null
  }

  function Next(chain: seq<Coroutine>, i: nat): Coroutine? {
    if i < |chain| then chain[i] else null
  }

  lemma ChainLinked(s: State, chain: seq<Coroutine>)
    requires IsChain(s, chain)
    ensures Linked(s)
  {
    forall c | c in s.cos && s.cos[c].prevCo != null ensures s.cos[c].prevCo in s.cos {
      assert c in chain;
      var i :| 0 <= i < |chain| && chain[i] == c;
    }
  }

  /** What a call makes of the chain. */
  function ChainAfter(s: State, chain: seq<Coroutine>, op: Op): seq<Coroutine>
    requires Linked(s) && Enabled(s, op)
  {
    if Step(s, op).1 != SUCCESS then chain
    else
      match op
      case Resume(co) => [co] + chain
      case Yield(_, _) => if chain == [] then [] else chain[1..]
      case Finish => if chain == [] then [] else chain[1..]
      case _ => chain
  }

  lemma ResumePushes(s: State, chain: seq<Coroutine>, co: Coroutine)
    requires IsChain(s, chain) && co in s.cos && s.cos[co].state == SUSPENDED
    ensures CanJumpIn(SetState(s, co, RUNNING), co) && IsChain(JumpIn(SetState(s, co, RUNNING), co), [co] + chain)
  {
    var t := JumpIn(SetState(s, co, RUNNING), co);
    var more := [co] + chain;
    assert co !in chain;
    forall i | 0 <= i < |more|
      ensures more[i] in t.cos && t.cos[more[i]].prevCo == Next(more, i + 1)
      ensures t.cos[more[i]].state == if i == 0 then RUNNING else NORMAL
    {
    }
  }

  lemma LeavePops(s: State, chain: seq<Coroutine>, co: Coroutine, st: CoState)
    requires IsChain(s, chain) && chain != [] && co == chain[0] && (st == SUSPENDED || st == DEAD)
    ensures CanJumpOut(SetState(s, co, st), co) && IsChain(JumpOut(SetState(s, co, st), co), chain[1..])
  {
    ChainLinked(s, chain);
    var t := JumpOut(SetState(s, co, st), co);
    var rest := chain[1..];
    forall i | 0 <= i < |rest|
      ensures rest[i] in t.cos && t.cos[rest[i]].prevCo == Next(rest, i + 1)
      ensures t.cos[rest[i]].state == if i == 0 then RUNNING else NORMAL
    {
      assert rest[i] == chain[i + 1];
    }
    forall c | c in t.cos && c !in rest
      ensures (t.cos[c].state == SUSPENDED || t.cos[c].state == DEAD) && t.cos[c].prevCo == null
    {
      assert c == co || c !in chain;
    }
  }

  lemma OnlyFirstRuns(s: State, chain: seq<Coroutine>, co: Coroutine)
    requires IsChain(s, chain) && co in s.cos
    ensures s.cos[co].state == RUNNING <==> chain != [] && co == chain[0]
    ensures s.cos[co].state == NORMAL <==> co in chain && co != chain[0]
  {
    if co in chain {
      var i :| 0 <= i < |chain| && chain[i] == co;
    }
  }

  lemma OffChainKept(s: State, chain: seq<Coroutine>, co: Coroutine)
    requires IsChain(s, chain) && co in s.cos && (s.cos[co].state == SUSPENDED || s.cos[co].state == DEAD)
    ensures IsChain(SetState(s, co, DEAD), chain)
    ensures var t := SetState(s, co, DEAD); IsChain(t.(cos := t.cos - {co}), chain)
  {
    assert co !in chain;
  }

  /** Every call keeps the chain as it is meant to be. */
  lemma StepKeeps(s: State, chain: seq<Coroutine>, op: Op)
    requires IsChain(s, chain) && Enabled(s, op)
    ensures Linked(s) && IsChain(Step(s, op).0, ChainAfter(s, chain, op))
  {
    hide IsChain, JumpIn, JumpOut;
    ChainLinked(s, chain);
    match op
    case Create(novel) => CreateKeeps(s, chain, novel);
    case Resume(co) =>
      if co != null && s.cos[co].state == SUSPENDED {
        ResumePushes(s, chain, co);
      }
    case Yield(co, stackOk) =>
      if co != null && stackOk && s.cos[co].state == RUNNING {
        OnlyFirstRuns(s, chain, co);
        LeavePops(s, chain, co, SUSPENDED);
      }
    case Finish =>
      ChainHead(s, chain);
      LeavePops(s, chain, s.current, DEAD);
    case Uninit(co) =>
      if co != null && (s.cos[co].state == SUSPENDED || s.cos[co].state == DEAD) {
        OffChainKept(s, chain, co);
      }
    case Destroy(co, _) =>
      if co != null && (s.cos[co].state == SUSPENDED || s.cos[co].state == DEAD) {
        OffChainKept(s, chain, co);
      }
  }

  lemma CreateKeeps(s: State, chain: seq<Coroutine>, novel: Coroutine)
    requires IsChain(s, chain) && novel !in s.cos
    ensures IsChain(s.(cos := s.cos[novel := Co(SUSPENDED, null)]), chain)
  {
  }

  lemma ChainHead(s: State, chain: seq<Coroutine>)
    requires IsChain(s, chain)
    ensures s.current == Next(chain, 0)
  {
  }

  lemma ChainLink(s: State, chain: seq<Coroutine>, i: nat)
    requires IsChain(s, chain)
    ensures s.current == Next(chain, 0)
    ensures i < |chain| ==> chain[i] in s.cos && s.cos[chain[i]].prevCo == Next(chain, i + 1)
  {
  }

  lemma {:induction false} SamePrefix(s: State, a: seq<Coroutine>, b: seq<Coroutine>, n: nat)
    requires IsChain(s, a) && IsChain(s, b) && n <= |a| <= |b|
    ensures a[..n] == b[..n] && Next(a, n) == Next(b, n)
  {
    hide IsChain;
    if n == 0 {
      ChainLink(s, a, 0);
      ChainLink(s, b, 0);
    } else {
      SamePrefix(s, a, b, n - 1);
      ChainLink(s, a, n - 1);
      ChainLink(s, b, n - 1);
      assert a[..n] == a[..n - 1] + [a[n - 1]] && b[..n] == b[..n - 1] + [b[n - 1]];
    }
  }

  lemma ShorterIsSame(s: State, a: seq<Coroutine>, b: seq<Coroutine>)
    requires IsChain(s, a) && IsChain(s, b) && |a| <= |b|
    ensures a == b
  {
    hide IsChain;
    SamePrefix(s, a, b, |a|);
    assert a == a[..|a|];
    assert b[..|b|] == b;
  }

  /** There is only one such chain. */
  lemma ChainUnique(s: State, a: seq<Coroutine>, b: seq<Coroutine>)
    requires IsChain(s, a) && IsChain(s, b)
    ensures a == b
  {
    hide IsChain;
    if |a| <= |b| {
      ShorterIsSame(s, a, b);
    } else {
      ShorterIsSame(s, b, a);
    }
  }

  // ---------------------------------------------------------------- every run

  ghost predicate ValidRun(s: State, chain: seq<Coroutine>, ops: seq<Op>)
    requires IsChain(s, chain)
    decreases |ops|
  {
    ops == [] ||
    (Enabled(s, ops[0])
     && (StepKeeps(s, chain, ops[0]); ValidRun(Step(s, ops[0]).0, ChainAfter(s, chain, ops[0]), ops[1..])))
  }

  /** The state after the calls, and the chain. */
  ghost function Run(s: State, chain: seq<Coroutine>, ops: seq<Op>): (r: (State, seq<Coroutine>))
    requires IsChain(s, chain) && ValidRun(s, chain, ops)
    ensures IsChain(r.0, r.1)
    decreases |ops|
  {
    if ops == [] then (s, chain)
    else (StepKeeps(s, chain, ops[0]); Run(Step(s, ops[0]).0, ChainAfter(s, chain, ops[0]), ops[1..]))
  }

  const INIT := State(map[], null)

  lemma StartsEmpty()
    ensures IsChain(INIT, [])
  {
  }

  /** In every run the coroutines reached from the current one by prev_co are distinct, the first
      is running and the others are normal; every other coroutine is suspended or dead and has
      no prev_co. */
  lemma ChainAlways(ops: seq<Op>)
    requires (StartsEmpty(); ValidRun(INIT, [], ops))
    ensures (StartsEmpty(); IsChain(Run(INIT, [], ops).0, Run(INIT, [], ops).1))
  {
    StartsEmpty();
  }

  /** Throughout the run the chain has at least n members. */
  ghost predicate Deep(s: State, chain: seq<Coroutine>, ops: seq<Op>, n: nat)
    requires IsChain(s, chain) && ValidRun(s, chain, ops)
    decreases |ops|
  {
    && n <= |chain|
    && (ops == [] ||
        (StepKeeps(s, chain, ops[0]); Deep(Step(s, ops[0]).0, ChainAfter(s, chain, ops[0]), ops[1..], n)))
  }

  /** The last n members. */
  function Tail(chain: seq<Coroutine>, n: nat): seq<Coroutine>
    requires n <= |chain|
  {
    chain[|chain| - n..]
  }

  lemma TailAfter(s: State, chain: seq<Coroutine>, op: Op, n: nat)
    requires IsChain(s, chain) && Enabled(s, op) && Linked(s) && n <= |chain| && n <= |ChainAfter(s, chain, op)|
    ensures Tail(ChainAfter(s, chain, op), n) == Tail(chain, n)
  {
  }

  lemma {:induction false} TailStays(s: State, chain: seq<Coroutine>, ops: seq<Op>, n: nat)
    requires IsChain(s, chain) && ValidRun(s, chain, ops) && Deep(s, chain, ops, n)
    ensures n <= |chain| && n <= |Run(s, chain, ops).1| && Tail(Run(s, chain, ops).1, n) == Tail(chain, n)
    decreases |ops|
  {
    hide IsChain, Step, ChainAfter;
    if ops != [] {
      StepKeeps(s, chain, ops[0]);
      var t, after := Step(s, ops[0]).0, ChainAfter(s, chain, ops[0]);
      TailStays(t, after, ops[1..], n);
      TailAfter(s, chain, ops[0], n);
    }
  }

  /** Last in, first out: a coroutine was resumed, with chain waiting below it; it and what it
      resumes in turn make any calls; and at last a call brings the depth back to where it was. That
      call is the coroutine's own yield or return, and it brings back the very chain that was
      there: control returns to the one that resumed it. */
  lemma LastInFirstOut(s: State, chain: seq<Coroutine>, co: Coroutine, ops: seq<Op>, leave: Op)
    requires IsChain(s, chain) && co in s.cos && s.cos[co].state == SUSPENDED
    requires (StepKeeps(s, chain, Resume(co)); ValidRun(Step(s, Resume(co)).0, [co] + chain, ops))
    requires (StepKeeps(s, chain, Resume(co)); Deep(Step(s, Resume(co)).0, [co] + chain, ops, |chain| + 1))
    requires (StepKeeps(s, chain, Resume(co));
      var (t, inner) := Run(Step(s, Resume(co)).0, [co] + chain, ops);
      ChainLinked(t, inner);
      Enabled(t, leave) && |ChainAfter(t, inner, leave)| == |chain|)
    ensures (StepKeeps(s, chain, Resume(co));
      var (t, inner) := Run(Step(s, Resume(co)).0, [co] + chain, ops);
      ChainLinked(t, inner);
      && inner == [co] + chain && ChainAfter(t, inner, leave) == chain
      && (leave == Yield(co, true) || (leave == Finish && t.current == co)))
  {
    hide JumpIn, JumpOut;
    StepKeeps(s, chain, Resume(co));
    var u := Step(s, Resume(co)).0;
    TailStays(u, [co] + chain, ops, |chain| + 1);
    var (t, inner) := Run(u, [co] + chain, ops);
    ChainLinked(t, inner);
    ShrinksByOne(t, inner, leave);
    assert Tail([co] + chain, |chain| + 1) == [co] + chain;
    assert Tail(inner, |chain| + 1) == inner;
  }

  /** Only the yield or the return of the first of the chain makes it shorter, and by one. */
  lemma ShrinksByOne(s: State, chain: seq<Coroutine>, op: Op)
    requires IsChain(s, chain) && Linked(s) && Enabled(s, op) && |ChainAfter(s, chain, op)| < |chain|
    ensures ChainAfter(s, chain, op) == chain[1..]
    ensures op == Yield(chain[0], true) || (op == Finish && s.current == chain[0])
  {
    if op.Yield? {
      OnlyFirstRuns(s, chain, op.co);
    }
  }

  // ---------------------------------------------------------------- in place

  class Coroutine {
    var state: CoState
    var prevCo: Coroutine?

    /** mco_init leaves a coroutine suspended. */
    constructor ()
      ensures state == SUSPENDED && prevCo == null
    {
      state := SUSPENDED;
      prevCo := null;
    }
  }

  /** The variables of a thread. */
  class ThreadLocals {
    var current: Coroutine?
  }

  ghost function Snapshot(cos: set<Coroutine>, here: ThreadLocals): (s: State)
    reads cos, here
    ensures s.cos.Keys == cos
  {
    State(map c | c in cos :: Co(c.state, c.prevCo), here.current)
  }

  method PrepareJumpIn(ghost cos: set<Coroutine>, here: ThreadLocals, co: Coroutine)
    requires CanJumpIn(Snapshot(cos, here), co) && here.current != co
    requires co.prevCo == null && (here.current != null ==> here.current.state == RUNNING)
    modifies here, cos
    ensures Snapshot(cos, here) == JumpIn(old(Snapshot(cos, here)), co)
  {
    ghost var t := JumpIn(Snapshot(cos, here), co);
    var prev := here.current;
    co.prevCo := prev;
    if prev != null {
      prev.state := NORMAL;
    }
    here.current := co;
    assert Snapshot(cos, here).cos == t.cos;
  }

  method PrepareJumpOut(ghost cos: set<Coroutine>, here: ThreadLocals, co: Coroutine)
    requires CanJumpOut(Snapshot(cos, here), co) && co.prevCo != co
    modifies here, cos
    ensures Snapshot(cos, here) == JumpOut(old(Snapshot(cos, here)), co)
  {
    ghost var t := JumpOut(Snapshot(cos, here), co);
    var prev := co.prevCo;
    co.prevCo := null;
    if prev != null {
      prev.state := RUNNING;
    }
    here.current := prev;
    assert Snapshot(cos, here).cos == t.cos;
  }

  method PutState(ghost cos: set<Coroutine>, here: ThreadLocals, co: Coroutine, st: CoState)
    requires co in cos
    modifies co`state
    ensures Snapshot(cos, here) == SetState(old(Snapshot(cos, here)), co, st)
  {
    ghost var t := SetState(Snapshot(cos, here), co, st);
    co.state := st;
    assert Snapshot(cos, here).cos == t.cos;
  }

  /** mco_resume, up to the switch. The coroutine has no prev_co, and what was running is in the
      state RUNNING, as _mco_prepare_jumpin asserts. */
  method McoResume(ghost cos: set<Coroutine>, ghost chain: seq<Coroutine>, here: ThreadLocals, co: Coroutine?)
    returns (r: McoResult)
    requires IsChain(Snapshot(cos, here), chain) && (co != null ==> co in cos)
    modifies here, cos
    ensures Linked(old(Snapshot(cos, here))) && (Snapshot(cos, here), r) == Step(old(Snapshot(cos, here)), Resume(co))
  {
    ghost var s := Snapshot(cos, here);
    ChainLinked(s, chain);
    if co == null {
      return INVALID_COROUTINE;
    }
    if co.state != SUSPENDED {
      return NOT_SUSPENDED;
    }
    JumpInReady(s, chain, co);
    hide IsChain, JumpIn;
    PutState(cos, here, co, RUNNING);
    PrepareJumpIn(cos, here, co);
    return SUCCESS;
  }

  lemma JumpInReady(s: State, chain: seq<Coroutine>, co: Coroutine)
    requires IsChain(s, chain) && co in s.cos && s.cos[co].state == SUSPENDED
    ensures s.cos[co].prevCo == null && s.current != co
    ensures s.current != null ==> s.current in s.cos && s.cos[s.current].state == RUNNING
  {
    assert co !in chain;
  }

  lemma JumpOutReady(s: State, chain: seq<Coroutine>, co: Coroutine)
    requires IsChain(s, chain) && co in s.cos && s.cos[co].state == RUNNING
    ensures co == s.current && s.cos[co].prevCo != co
    ensures s.cos[co].prevCo != null ==> s.cos[co].prevCo in s.cos && s.cos[s.cos[co].prevCo].state == NORMAL
  {
    OnlyFirstRuns(s, chain, co);
  }

  /** mco_yield, up to the switch. Whatever runs again was in the state NORMAL, and mco_running()
      was co, as the comments in _mco_prepare_jumpout have it. */
  method McoYield(ghost cos: set<Coroutine>, ghost chain: seq<Coroutine>, here: ThreadLocals, co: Coroutine?,
          stackOk: bool)
    returns (r: McoResult)
    requires IsChain(Snapshot(cos, here), chain) && (co != null ==> co in cos)
    modifies here, cos
    ensures Linked(old(Snapshot(cos, here)))
    ensures (Snapshot(cos, here), r) == Step(old(Snapshot(cos, here)), Yield(co, stackOk))
  {
    ghost var s := Snapshot(cos, here);
    ChainLinked(s, chain);
    if co == null {
      return INVALID_COROUTINE;
    }
    if !stackOk {
      return STACK_OVERFLOW;
    }
    if co.state != RUNNING {
      return NOT_RUNNING;
    }
    JumpOutReady(s, chain, co);
    hide IsChain, JumpOut;
    PutState(cos, here, co, SUSPENDED);
    PrepareJumpOut(cos, here, co);
    return SUCCESS;
  }

  /** The end of _mco_main. */
  method McoMainEnds(ghost cos: set<Coroutine>, ghost chain: seq<Coroutine>, here: ThreadLocals, co: Coroutine)
    requires IsChain(Snapshot(cos, here), chain) && here.current == co
    modifies here, cos
    ensures Linked(old(Snapshot(cos, here))) && Snapshot(cos, here) == Step(old(Snapshot(cos, here)), Finish).0
  {
    ghost var s := Snapshot(cos, here);
    ChainLinked(s, chain);
    OnlyFirstRuns(s, chain, co);
    JumpOutReady(s, chain, co);
    hide IsChain, JumpOut;
    PutState(cos, here, co, DEAD);
    PrepareJumpOut(cos, here, co);
  }

  method McoUninit(ghost cos: set<Coroutine>, here: ThreadLocals, co: Coroutine?) returns (r: McoResult)
    requires co != null ==> co in cos
    modifies cos
    ensures (Snapshot(cos, here), r) == StepUninit(old(Snapshot(cos, here)), co)
  {
    if co == null {
      return INVALID_COROUTINE;
    }
    if !(co.state == SUSPENDED || co.state == DEAD) {
      return INVALID_OPERATION;
    }
    PutState(cos, here, co, DEAD);
    return SUCCESS;
  }

  method McoCreate(ghost cos: set<Coroutine>, here: ThreadLocals) returns (co: Coroutine)
    requires Linked(Snapshot(cos, here))
    ensures fresh(co) && Snapshot(cos + {co}, here) == Step(old(Snapshot(cos, here)), Create(co)).0
  {
    ghost var s := Snapshot(cos, here);
    co := new Coroutine();
    assert Snapshot(cos + {co}, here).cos == s.cos[co := Co(SUSPENDED, null)];
  }

  /** mco_destroy; left is what is not freed. */
  method McoDestroy(ghost cos: set<Coroutine>, ghost chain: seq<Coroutine>, here: ThreadLocals, co: Coroutine?,
          freeable: bool)
    returns (r: McoResult, ghost left: set<Coroutine>)
    requires IsChain(Snapshot(cos, here), chain) && (co != null ==> co in cos)
    modifies cos
    ensures Linked(old(Snapshot(cos, here)))
    ensures (Snapshot(left, here), r) == Step(old(Snapshot(cos, here)), Destroy(co, freeable))
  {
    ghost var s := Snapshot(cos, here);
    ChainLinked(s, chain);
    r := McoUninit(cos, here, co);
    left := cos;
    if r != SUCCESS {
      return;
    }
    if !freeable {
      r := INVALID_POINTER;
      return;
    }
    left := cos - {co};
    assert Snapshot(left, here).cos == Snapshot(cos, here).cos - {co};
  }
}

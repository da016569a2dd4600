/** minitrace's double-buffered flush (minitrace.cpp) as a step system: any number of threads
    write events and flush, in every interleaving. A step is what a thread does between two
    points where others can get in; what is only touched under a mutex is done in one step of
    the mutex's holder. */
module Minitrace {

  type Thread = nat
  type Event = nat

  datatype Option<+T> = None | Some(value: T)

  /** The two buffers; event_buffer and flush_buffer point to one each. */
  datatype Buffer = A | B

  /** A slot is Torn while some of its fields are of the new event and some are not. */
  datatype Slot = Empty | Torn | Full(e: Event)

  /** A buffer, its slots, and (a history) the events the slots were claimed for since it last
      became the event buffer. */
  datatype Side = Side(id: Buffer, slots: seq<Slot>, claims: seq<Event>)

  /** The slot a thread writes an event to: the pointer ev. */
  datatype Claim = Claim(e: Event, b: Buffer, k: nat)

  /** Where a thread is. */
  datatype Pc =
    | Idle
    | WantWrite(e: Event)       // internal_mtr_raw_event, at the lock of mutex
    | Checking(e: Event)        // holds mutex
    | Claimed(c: Claim)         // holds mutex, has a slot
    | Counted(c: Claim)         // holds mutex, is among the events in progress
    | Filling(c: Claim)         // has let go of mutex, has not touched the slot
    | Halfway(c: Claim)         // has written some fields
    | Filled(c: Claim)          // has written all fields
    | WantFlush                 // mtr_flush_with_state, at the first lock of mutex
    | Deciding                  // holds mutex
    | Spinning(copy: nat)       // holds mutex, waits for the events in progress
    | Drained(copy: nat)        // holds mutex, has seen none in progress
    | Reading(i: nat, copy: nat)
    | WantEnd                   // at the second lock of mutex
    | Ending                    // holds mutex

  /** The shared variables, where the threads are, and three histories: the events accepted, the
      slots as they were read for the file, and the accepted events still to be read. */
  datatype State = State(
    holder: Option<Thread>,
    tracing: bool,
    flushing: bool,
    count: nat,
    inProgress: int,
    event: Side,
    flush: Side,
    pcs: map<Thread, Pc>,
    accepted: seq<Event>,
    output: seq<Slot>,
    toFlush: seq<Event>)

  /** What an idle thread may call; any other thread just goes on. */
  datatype Action = WriteEvent(e: Event) | Flush | SetTracing(on: bool) | Go

  function Move(s: State, t: Thread, pc: Pc): State {
    s.(pcs := s.pcs[t := pc])
  }

  /** A write through a slot pointer, whichever buffer it points into by now. */
  function WriteSlot(s: State, c: Claim, v: Slot): State {
    if c.b == s.event.id && c.k < |s.event.slots| then s.(event := s.event.(slots := s.event.slots[c.k := v]))
    else if c.b == s.flush.id && c.k < |s.flush.slots| then s.(flush := s.flush.(slots := s.flush.slots[c.k := v]))
    else s
  }

  /** An event gets the next slot of the event buffer. */
  function TakeSlot(s: State, e: Event): State {
    s.(count := s.count + 1, event := s.event.(claims := s.event.claims + [e]), accepted := s.accepted + [e])
  }

  /** Slot i of the flush buffer is written to the file, whatever is in it. */
  function ReadSlot(s: State, i: nat): State {
    s.(output := s.output + [if i < |s.flush.slots| then s.flush.slots[i] else Torn],
       toFlush := if s.toFlush == [] then [] else s.toFlush[1..])
  }

  /** The critical section of mtr_flush_with_state that swaps the buffers. */
  function Swap(s: State): State {
    s.(flushing := true, count := 0, event := s.flush.(claims := []), flush := s.event, toFlush := s.event.claims)
  }

  /** The step thread t takes, if it can take one; n is the size of the buffers. */
  function Step(n: nat, s: State, t: Thread, a: Action): Option<State>
    requires t in s.pcs
  {
    match s.pcs[t]
    case Idle => (
      match a
      case WriteEvent(e) => Some(Move(s, t, WantWrite(e)))
      case Flush => Some(Move(s, t, WantFlush))
      case SetTracing(on) => if s.holder == None then Some(s.(tracing := on)) else None
      case Go => None)
    case WantWrite(e) =>
      if s.holder == None then Some(Move(s.(holder := Some(t)), t, Checking(e))) else None
    case Checking(e) =>
      if !s.tracing || s.count >= n then Some(Move(s.(holder := None), t, Idle))
      else Some(Move(TakeSlot(s, e), t, Claimed(Claim(e, s.event.id, s.count))))
    case Claimed(c) => Some(Move(s.(inProgress := s.inProgress + 1), t, Counted(c)))
    case Counted(c) => Some(Move(s.(holder := None), t, Filling(c)))
    case Filling(c) => Some(Move(WriteSlot(s, c, Torn), t, Halfway(c)))
    case Halfway(c) => Some(Move(WriteSlot(s, c, Full(c.e)), t, Filled(c)))
    case Filled(c) => Some(Move(s.(inProgress := s.inProgress - 1), t, Idle))
    case WantFlush =>
      if s.holder == None then Some(Move(s.(holder := Some(t)), t, Deciding)) else None
    case Deciding =>
      if s.flushing then Some(Move(s.(holder := None), t, Idle))
      else Some(Move(Swap(s), t, Spinning(s.count)))
    case Spinning(copy) => Some(if s.inProgress == 0 then Move(s, t, Drained(copy)) else s)
    case Drained(copy) => Some(Move(s.(holder := None), t, Reading(0, copy)))
    case Reading(i, copy) =>
      if i >= copy then Some(Move(s, t, WantEnd))
      else
        Some(Move(ReadSlot(s, i), t, Reading(i + 1, copy)))
    case WantEnd =>
      if s.holder == None then Some(Move(s.(holder := Some(t)), t, Ending)) else None
    case Ending => Some(Move(s.(holder := None, flushing := false), t, Idle))
  }

  /** Right after mtr_init: no event, nobody inside. */
  predicate Init(n: nat, s: State) {
    && s.holder == None && !s.flushing && s.count == 0 && s.inProgress == 0
    && s.event.id != s.flush.id && |s.event.slots| == n && |s.flush.slots| == n
    && s.event.claims == [] && s.accepted == [] && s.output == [] && s.toFlush == []
    && forall t :: t in s.pcs ==> s.pcs[t] == Idle
  }

  // ---------------------------------------------------------------- the invariant

  predicate HoldsMutex(pc: Pc) {
    pc.Checking? || pc.Claimed? || pc.Counted? || pc.Deciding? || pc.Spinning? || pc.Drained? || pc.Ending?
  }

  predicate IsFlusher(pc: Pc) {
    pc.Spinning? || pc.Drained? || pc.Reading? || pc.WantEnd? || pc.Ending?
  }

  /** The thread has a slot it has not finished with. */
  predicate HasClaim(pc: Pc) {
    pc.Claimed? || pc.Counted? || pc.Filling? || pc.Halfway? || pc.Filled?
  }

  /** The thread is among the events in progress. */
  predicate Busy(pc: Pc) {
    pc.Counted? || pc.Filling? || pc.Halfway? || pc.Filled?
  }

  /** A flusher has swapped the buffers and waits for the threads that still write. */
  ghost predicate Waiting(s: State) {
    exists t :: t in s.pcs && s.pcs[t].Spinning?
  }

  /** The buffer threads write to: the event buffer, except while a flusher waits for those
      that got their slots before it swapped. */
  ghost function Target(s: State): Side {
    if Waiting(s) then s.flush else s.event
  }

  ghost predicate Locked(s: State) {
    forall t :: t in s.pcs ==> (HoldsMutex(s.pcs[t]) <==> s.holder == Some(t))
  }

  ghost predicate OneFlusher(s: State) {
    && (s.flushing <==> exists t :: t in s.pcs && IsFlusher(s.pcs[t]))
    && (forall t, u :: t in s.pcs && u in s.pcs && IsFlusher(s.pcs[t]) && IsFlusher(s.pcs[u]) ==> t == u)
  }

  ghost predicate Counts(s: State) {
    s.inProgress == |BusyThreads(s)|
  }

  ghost function BusyThreads(s: State): set<Thread> {
    set t | t in s.pcs && Busy(s.pcs[t])
  }

  ghost predicate Shapes(n: nat, s: State) {
    && s.event.id != s.flush.id && |s.event.slots| == n && |s.flush.slots| == n
    && |s.event.claims| == s.count <= n
    && (s.flushing ==> |s.flush.claims| <= n)
  }

  /** What a thread with a claim knows of its slot. */
  ghost predicate Owns(s: State, pc: Pc)
    requires HasClaim(pc)
  {
    var target := Target(s);
    && pc.c.b == target.id && pc.c.k < |target.claims| && pc.c.k < |target.slots|
    && target.claims[pc.c.k] == pc.c.e
    && (pc.Filled? ==> target.slots[pc.c.k] == Full(pc.c.e))
  }

  ghost predicate Claims(s: State) {
    && (forall t :: t in s.pcs && HasClaim(s.pcs[t]) ==> Owns(s, s.pcs[t]))
    && (forall t, u :: t in s.pcs && u in s.pcs && t != u && HasClaim(s.pcs[t]) && HasClaim(s.pcs[u]) ==>
          s.pcs[t].c.k != s.pcs[u].c.k)
  }

  /** Slot k of side is finished, or some thread is still to finish it. */
  ghost predicate Finished(s: State, side: Side, k: nat)
    requires k < |side.claims| && k < |side.slots|
  {
    || side.slots[k] == Full(side.claims[k])
    || (side.id == Target(s).id && exists t :: t in s.pcs && HasClaim(s.pcs[t]) && s.pcs[t].c.k == k)
  }

  ghost predicate AllFinished(s: State, side: Side) {
    forall k :: 0 <= k < |side.claims| && k < |side.slots| ==> Finished(s, side, k)
  }

  /** How far the flusher is. */
  ghost predicate Progress(s: State) {
    && (!s.flushing ==> s.toFlush == [])
    && (forall t :: t in s.pcs ==> ProgressAt(s, s.pcs[t]))
  }

  /** Nothing is lost, doubled or out of order: what has been written to the file is a prefix of
      the accepted events, and the rest is being flushed or waits in the event buffer. */
  ghost predicate Conserved(s: State) {
    && |s.output| <= |s.accepted|
    && (forall k :: 0 <= k < |s.output| ==> s.output[k] == Full(s.accepted[k]))
    && s.accepted[|s.output|..] == s.toFlush + s.event.claims
  }

  ghost predicate Inv(n: nat, s: State) {
    && Locked(s) && OneFlusher(s) && Counts(s) && Shapes(n, s) && Claims(s)
    && AllFinished(s, s.event) && (s.flushing ==> AllFinished(s, s.flush))
    && Progress(s) && Conserved(s)
  }

  // ---------------------------------------------------------------- every step keeps it

  /** The mutex is taken, let go, or stays with whom it is. */
  predicate LockStep(t: Thread, before: Option<Thread>, after: Option<Thread>, from: Pc, to: Pc) {
    if HoldsMutex(from) == HoldsMutex(to) then after == before
    else if HoldsMutex(to) then before == None && after == Some(t)
    else after == None
  }

  lemma LockKept(s: State, s': State, t: Thread, pc: Pc)
    requires Locked(s) && t in s.pcs && s'.pcs == s.pcs[t := pc]
    requires LockStep(t, s.holder, s'.holder, s.pcs[t], pc)
    ensures Locked(s')
  {
  }

  lemma FlusherKept(s: State, s': State, t: Thread, pc: Pc)
    requires OneFlusher(s) && t in s.pcs && s'.pcs == s.pcs[t := pc]
    requires IsFlusher(pc) == IsFlusher(s.pcs[t]) && s'.flushing == s.flushing
    ensures OneFlusher(s')
  {
    forall u | u in s.pcs && IsFlusher(s.pcs[u]) ensures u in s'.pcs && IsFlusher(s'.pcs[u]) {
    }
  }

  lemma CountKept(s: State, s': State, t: Thread, pc: Pc)
    requires Counts(s) && t in s.pcs && s'.pcs == s.pcs[t := pc]
    requires s'.inProgress - s.inProgress == (if Busy(pc) then 1 else 0) - (if Busy(s.pcs[t]) then 1 else 0)
    ensures Counts(s')
  {
    var before, after := BusyThreads(s), BusyThreads(s');
    if Busy(pc) && !Busy(s.pcs[t]) {
      assert after == before + {t};
    } else if !Busy(pc) && Busy(s.pcs[t]) {
      assert before == after + {t};
    } else {
      assert after == before;
    }
  }

  lemma WaitingKept(s: State, s': State, t: Thread, pc: Pc)
    requires t in s.pcs && s'.pcs == s.pcs[t := pc] && pc.Spinning? == s.pcs[t].Spinning?
    ensures Waiting(s') == Waiting(s)
  {
    forall u | u in s.pcs && s.pcs[u].Spinning? ensures u in s'.pcs && s'.pcs[u].Spinning? {
    }
  }

  /** Moving a thread that keeps its claim, if it has one, and writes nothing. */
  lemma ClaimsKept(s: State, s': State, t: Thread, pc: Pc)
    requires Claims(s) && t in s.pcs && s'.pcs == s.pcs[t := pc]
    requires s'.event == s.event && s'.flush == s.flush && Waiting(s') == Waiting(s)
    requires HasClaim(pc) ==> HasClaim(s.pcs[t]) && pc.c == s.pcs[t].c && (pc.Filled? ==> s.pcs[t].Filled?)
    ensures Claims(s')
  {
  }

  lemma FinishedKept(s: State, s': State, t: Thread, pc: Pc, side: Side)
    requires AllFinished(s, side) && t in s.pcs && s'.pcs == s.pcs[t := pc] && Target(s').id == Target(s).id
    requires HasClaim(s.pcs[t]) ==> HasClaim(pc) && pc.c == s.pcs[t].c
    ensures AllFinished(s', side)
  {
    forall k | 0 <= k < |side.claims| && k < |side.slots| ensures Finished(s', side, k) {
      assert Finished(s, side, k);
      if side.slots[k] != Full(side.claims[k]) {
        var u :| u in s.pcs && HasClaim(s.pcs[u]) && s.pcs[u].c.k == k;
        assert u in s'.pcs && HasClaim(s'.pcs[u]) && s'.pcs[u].c.k == k;
      }
    }
  }

  /** What a flusher's place has to do with the events still to be written to the file. */
  predicate ProgressAt(s: State, pc: Pc) {
    match pc
    case Spinning(copy) => copy == |s.flush.claims| && s.toFlush == s.flush.claims
    case Drained(copy) => copy == |s.flush.claims| && s.toFlush == s.flush.claims
    case Reading(i, copy) => i <= copy == |s.flush.claims| && s.toFlush == s.flush.claims[i..]
    case WantEnd => s.toFlush == []
    case Ending => s.toFlush == []
    case _ => true
  }

  /** s with the small shared variables as given and thread t at pc. */
  function Settle(s: State, t: Thread, h: Option<Thread>, on: bool, progress: int, pc: Pc): State {
    Move(s.(holder := h, tracing := on, inProgress := progress), t, pc)
  }

  /** A step that changes no more than that, and neither starts nor ends a claim, a flush or the
      wait for the writers. */
  lemma QuietStep(n: nat, s: State, t: Thread, h: Option<Thread>, on: bool, progress: int, pc: Pc)
    requires Inv(n, s) && t in s.pcs && LockStep(t, s.holder, h, s.pcs[t], pc)
    requires progress - s.inProgress == (if Busy(pc) then 1 else 0) - (if Busy(s.pcs[t]) then 1 else 0)
    requires IsFlusher(pc) == IsFlusher(s.pcs[t]) && pc.Spinning? == s.pcs[t].Spinning?
    requires HasClaim(pc) == HasClaim(s.pcs[t])
    requires HasClaim(pc) ==> pc.c == s.pcs[t].c && (pc.Filled? ==> s.pcs[t].Filled?)
    requires ProgressAt(s, pc)
    ensures Inv(n, Settle(s, t, h, on, progress, pc))
  {
    hide Locked, OneFlusher, Counts, Claims, AllFinished, Waiting, IsFlusher, Busy, HasClaim, HoldsMutex, LockStep;
    var s' := Settle(s, t, h, on, progress, pc);
    LockKept(s, s', t, pc);
    FlusherKept(s, s', t, pc);
    CountKept(s, s', t, pc);
    WaitingKept(s, s', t, pc);
    ClaimsKept(s, s', t, pc);
    FinishedKept(s, s', t, pc, s.event);
    if s.flushing {
      FinishedKept(s, s', t, pc, s.flush);
    }
  }

  lemma NobodyWaits(s: State, t: Thread)
    requires Locked(s) && t in s.pcs && HoldsMutex(s.pcs[t]) && !s.pcs[t].Spinning?
    ensures !Waiting(s)
  {
  }

  /** Any step that starts a claim, for the slot after those already claimed. */
  lemma ClaimStep(n: nat, s: State, t: Thread)
    requires Inv(n, s) && t in s.pcs && s.pcs[t].Checking? && s.count < n
    ensures var e := s.pcs[t].e; Inv(n, Move(TakeSlot(s, e), t, Claimed(Claim(e, s.event.id, s.count))))
  {
    hide Locked, OneFlusher, Counts, Waiting, AllFinished, Claims, Finished;
    var e := s.pcs[t].e;
    var pc := Claimed(Claim(e, s.event.id, s.count));
    var s' := Move(TakeSlot(s, e), t, pc);
    LockKept(s, s', t, pc);
    FlusherKept(s, s', t, pc);
    CountKept(s, s', t, pc);
    WaitingKept(s, s', t, pc);
    NobodyWaits(s, t);
    assert s'.accepted[|s.output|..] == s.accepted[|s.output|..] + [e];
    assert s.toFlush + s.event.claims + [e] == s'.toFlush + s'.event.claims;
    NewClaim(n, s, s', t, pc);
    if s.flushing {
      FinishedKept(s, s', t, pc, s.flush);
    }
  }

  lemma NewClaim(n: nat, s: State, s': State, t: Thread, pc: Pc)
    requires Shapes(n, s) && Claims(s) && AllFinished(s, s.event) && t in s.pcs && !HasClaim(s.pcs[t]) && s.count < n
    requires pc.Claimed? && pc.c == Claim(pc.c.e, s.event.id, s.count)
    requires s'.pcs == s.pcs[t := pc] && s'.flush == s.flush && !Waiting(s) && !Waiting(s')
    requires s'.event == s.event.(claims := s.event.claims + [pc.c.e])
    ensures Claims(s') && AllFinished(s', s'.event)
  {
    hide Waiting;
    forall k | 0 <= k < |s'.event.claims| && k < |s'.event.slots| ensures Finished(s', s'.event, k) {
      if k < s.count {
        assert Finished(s, s.event, k);
        if s.event.slots[k] != Full(s.event.claims[k]) {
          var u :| u in s.pcs && HasClaim(s.pcs[u]) && s.pcs[u].c.k == k;
          assert u in s'.pcs && HasClaim(s'.pcs[u]) && s'.pcs[u].c.k == k;
        }
      } else {
        assert t in s'.pcs && HasClaim(s'.pcs[t]) && s'.pcs[t].c.k == k;
      }
    }
  }

  /** A thread is done with its slot. */
  lemma DoneStep(n: nat, s: State, t: Thread)
    requires Inv(n, s) && t in s.pcs && s.pcs[t].Filled?
    ensures Inv(n, Settle(s, t, s.holder, s.tracing, s.inProgress - 1, Idle))
  {
    hide Locked, OneFlusher, Counts, Waiting, AllFinished, Finished;
    var s' := Settle(s, t, s.holder, s.tracing, s.inProgress - 1, Idle);
    LockKept(s, s', t, Idle);
    FlusherKept(s, s', t, Idle);
    CountKept(s, s', t, Idle);
    WaitingKept(s, s', t, Idle);
    ClaimReleased(s, s', t, s.event);
    if s.flushing {
      ClaimReleased(s, s', t, s.flush);
    }
  }

  lemma ClaimReleased(s: State, s': State, t: Thread, side: Side)
    requires Claims(s) && AllFinished(s, side) && t in s.pcs && s.pcs[t].Filled?
    requires s'.pcs == s.pcs[t := Idle] && s'.event == s.event && s'.flush == s.flush && Waiting(s') == Waiting(s)
    requires side == s.event || side == s.flush
    requires s.event.id != s.flush.id
    ensures AllFinished(s', side)
  {
    hide Waiting;
    forall k | 0 <= k < |side.claims| && k < |side.slots| ensures Finished(s', side, k) {
      assert Finished(s, side, k);
      assert Owns(s, s.pcs[t]);
      if side.slots[k] != Full(side.claims[k]) {
        var u :| u in s.pcs && HasClaim(s.pcs[u]) && s.pcs[u].c.k == k;
        assert u in s'.pcs && HasClaim(s'.pcs[u]) && s'.pcs[u].c.k == k;
      }
    }
  }

  /** A thread writes to its slot: v is torn, or the whole event. */
  lemma WriteStep(n: nat, s: State, t: Thread, v: Slot, pc: Pc)
    requires Inv(n, s) && t in s.pcs && HasClaim(s.pcs[t]) && Busy(s.pcs[t]) && !HoldsMutex(s.pcs[t])
    requires HasClaim(pc) && Busy(pc) && !HoldsMutex(pc) && pc.c == s.pcs[t].c
    requires pc.Filled? ==> v == Full(pc.c.e)
    ensures Inv(n, Move(WriteSlot(s, pc.c, v), t, pc))
  {
    hide Locked, OneFlusher, Counts, Waiting, AllFinished, Claims, WriteSlot;
    var s' := Move(WriteSlot(s, pc.c, v), t, pc);
    WriteEffect(n, s, s', t, v, pc);
    LockKept(s, s', t, pc);
    FlusherKept(s, s', t, pc);
    CountKept(s, s', t, pc);
    WaitingKept(s, s', t, pc);
    WriteClaims(n, s, s', t, v, pc);
    WriteFinishes(n, s, s', t, v, pc);
    if s.flushing || Waiting(s) {
      SpinnersFlush(s);
    }
  }

  lemma SpinnersFlush(s: State)
    requires OneFlusher(s) && (Waiting(s) || s.flushing)
    ensures s.flushing
  {
  }

  /** Only the slot of the claim changes, on the side threads write to. */
  lemma WriteEffect(n: nat, s: State, s': State, t: Thread, v: Slot, pc: Pc)
    requires Inv(n, s) && t in s.pcs && HasClaim(s.pcs[t]) && HasClaim(pc) && pc.c == s.pcs[t].c
    requires s' == Move(WriteSlot(s, pc.c, v), t, pc)
    ensures var side := if Waiting(s) then s.flush else s.event;
      && pc.c.k < |side.slots|
      && var side' := side.(slots := side.slots[pc.c.k := v]);
      s' == Move(if Waiting(s) then s.(flush := side') else s.(event := side'), t, pc)
  {
    hide Locked, OneFlusher, Counts, Waiting, AllFinished, Progress, Conserved;
    assert Owns(s, s.pcs[t]);
  }

  lemma WriteClaims(n: nat, s: State, s': State, t: Thread, v: Slot, pc: Pc)
    requires Shapes(n, s) && Claims(s) && t in s.pcs && HasClaim(s.pcs[t]) && HasClaim(pc) && pc.c == s.pcs[t].c
    requires pc.Filled? ==> v == Full(pc.c.e)
    requires var side := if Waiting(s) then s.flush else s.event;
      && pc.c.k < |side.slots|
      && var side' := side.(slots := side.slots[pc.c.k := v]);
      s' == Move(if Waiting(s) then s.(flush := side') else s.(event := side'), t, pc)
    requires Waiting(s') == Waiting(s)
    ensures Claims(s')
  {
    hide Waiting;
    assert Owns(s, s.pcs[t]);
    forall u | u in s'.pcs && HasClaim(s'.pcs[u]) ensures Owns(s', s'.pcs[u]) {
      if u != t {
        assert Owns(s, s.pcs[u]);
      }
    }
  }

  lemma WriteFinishes(n: nat, s: State, s': State, t: Thread, v: Slot, pc: Pc)
    requires Shapes(n, s) && AllFinished(s, s.event) && (s.flushing ==> AllFinished(s, s.flush))
    requires t in s.pcs && HasClaim(s.pcs[t]) && HasClaim(pc) && pc.c == s.pcs[t].c
    requires var side := if Waiting(s) then s.flush else s.event;
      && pc.c.k < |side.slots|
      && var side' := side.(slots := side.slots[pc.c.k := v]);
      s' == Move(if Waiting(s) then s.(flush := side') else s.(event := side'), t, pc)
    requires Waiting(s') == Waiting(s)
    ensures AllFinished(s', s'.event) && (s'.flushing ==> AllFinished(s', s'.flush))
  {
    hide Waiting;
    SideFinishes(s, s', t, pc, s.event, s'.event);
    if s.flushing {
      SideFinishes(s, s', t, pc, s.flush, s'.flush);
    }
  }

  lemma SideFinishes(s: State, s': State, t: Thread, pc: Pc, side: Side, side': Side)
    requires AllFinished(s, side) && t in s.pcs && HasClaim(s.pcs[t]) && HasClaim(pc) && pc.c == s.pcs[t].c
    requires s'.pcs == s.pcs[t := pc] && Target(s').id == Target(s).id
    requires side'.id == side.id && side'.claims == side.claims && |side'.slots| == |side.slots|
    requires forall k :: 0 <= k < |side.slots| && side'.slots[k] != side.slots[k] ==>
      k == pc.c.k && side.id == Target(s).id
    ensures AllFinished(s', side')
  {
    hide Target;
    forall k | 0 <= k < |side'.claims| && k < |side'.slots| ensures Finished(s', side', k) {
      assert Finished(s, side, k);
      if side'.slots[k] != Full(side'.claims[k]) {
        if side'.slots[k] != side.slots[k] {
          assert t in s'.pcs && HasClaim(s'.pcs[t]) && s'.pcs[t].c.k == k;
        } else {
          var u :| u in s.pcs && HasClaim(s.pcs[u]) && s.pcs[u].c.k == k;
          assert u in s'.pcs && HasClaim(s'.pcs[u]) && s'.pcs[u].c.k == k;
        }
      }
    }
  }

  /** A flusher swaps the buffers; the threads that write do so to what is now the flush buffer,
      and it starts to wait for them. */
  lemma SwapStep(n: nat, s: State, t: Thread)
    requires Inv(n, s) && t in s.pcs && s.pcs[t].Deciding? && !s.flushing
    ensures Inv(n, Move(Swap(s), t, Spinning(s.count)))
  {
    hide Locked, Counts, Waiting, AllFinished, Finished, Claims, OneFlusher;
    var pc := Spinning(s.count);
    var s' := Move(Swap(s), t, pc);
    LockKept(s, s', t, pc);
    CountKept(s, s', t, pc);
    NobodyWaits(s, t);
    FlushStarts(s, s', t, pc);
    assert Claims(s') by { SwapClaims(s, s', t); }
    FinishedMoves(s, s', t, s.event);
    assert AllFinished(s', s'.event) by { NothingToFinish(s', s'.event); }
    assert s.toFlush + s.event.claims == s.event.claims;
    assert s'.toFlush + s'.event.claims == s.event.claims;
  }

  lemma NothingToFinish(s: State, side: Side)
    requires side.claims == []
    ensures AllFinished(s, side)
  {
  }

  lemma FlushStarts(s: State, s': State, t: Thread, pc: Pc)
    requires OneFlusher(s) && Progress(s) && t in s.pcs && s.pcs[t].Deciding? && !s.flushing
    requires pc == Spinning(s.count) && s' == Move(Swap(s), t, pc) && |s.event.claims| == s.count
    ensures OneFlusher(s') && Waiting(s') && Progress(s')
  {
    assert t in s'.pcs && s'.pcs[t].Spinning?;
    forall u | u in s'.pcs && IsFlusher(s'.pcs[u]) ensures u == t {
    }
  }

  lemma SwapClaims(s: State, s': State, t: Thread)
    requires Claims(s) && t in s.pcs && s.pcs[t].Deciding? && !Waiting(s)
    requires s' == Move(Swap(s), t, Spinning(s.count)) && Waiting(s')
    ensures Claims(s')
  {
    hide Waiting;
    forall u | u in s'.pcs && HasClaim(s'.pcs[u]) ensures Owns(s', s'.pcs[u]) {
      assert Owns(s, s.pcs[u]);
    }
  }

  lemma FinishedMoves(s: State, s': State, t: Thread, side: Side)
    requires AllFinished(s, side) && side == s.event && t in s.pcs && s.pcs[t].Deciding? && !Waiting(s)
    requires s' == Move(Swap(s), t, Spinning(s.count)) && Waiting(s')
    ensures AllFinished(s', side)
  {
    hide Waiting;
    forall k | 0 <= k < |side.claims| && k < |side.slots| ensures Finished(s', side, k) {
      assert Finished(s, side, k);
      if side.slots[k] != Full(side.claims[k]) {
        var u :| u in s.pcs && HasClaim(s.pcs[u]) && s.pcs[u].c.k == k;
        assert u in s'.pcs && HasClaim(s'.pcs[u]) && s'.pcs[u].c.k == k;
      }
    }
  }

  /** A flusher that holds the mutex and sees no event in progress: no thread has a claim. */
  lemma NobodyWrites(s: State, t: Thread)
    requires Locked(s) && Counts(s) && t in s.pcs && s.pcs[t].Spinning? && s.inProgress == 0
    ensures forall u :: u in s.pcs ==> !HasClaim(s.pcs[u])
  {
    assert BusyThreads(s) == {};
    forall u | u in s.pcs ensures !HasClaim(s.pcs[u]) {
      var busy := u in BusyThreads(s);
    }
  }

  /** The flusher has seen that no event is in progress. */
  lemma DrainStep(n: nat, s: State, t: Thread)
    requires Inv(n, s) && t in s.pcs && s.pcs[t].Spinning? && s.inProgress == 0
    ensures Inv(n, Move(s, t, Drained(s.pcs[t].copy)))
  {
    hide Counts, Waiting, AllFinished, Claims, OneFlusher;
    var pc := Drained(s.pcs[t].copy);
    var s' := Move(s, t, pc);
    NobodyWrites(s, t);
    LockKept(s, s', t, pc);
    FlusherKept(s, s', t, pc);
    CountKept(s, s', t, pc);
    assert Claims(s') by { NoClaims(s'); }
    assert AllFinished(s, s.flush) by { SpinnerFlushes(s, t); }
    FinishedAlready(s, s', s.event);
    FinishedAlready(s, s', s.flush);
  }

  lemma SpinnerFlushes(s: State, t: Thread)
    requires OneFlusher(s) && t in s.pcs && IsFlusher(s.pcs[t])
    ensures s.flushing
  {
  }

  lemma NoClaims(s: State)
    requires forall u :: u in s.pcs ==> !HasClaim(s.pcs[u])
    ensures Claims(s)
  {
  }

  /** Without claims, finished slots are full. */
  lemma AllFull(s: State, side: Side)
    requires AllFinished(s, side) && forall u :: u in s.pcs ==> !HasClaim(s.pcs[u])
    ensures forall k :: 0 <= k < |side.claims| && k < |side.slots| ==> side.slots[k] == Full(side.claims[k])
  {
    forall k | 0 <= k < |side.claims| && k < |side.slots| ensures side.slots[k] == Full(side.claims[k]) {
      assert Finished(s, side, k);
    }
  }

  lemma FinishedAlready(s: State, s': State, side: Side)
    requires AllFinished(s, side) && forall u :: u in s.pcs ==> !HasClaim(s.pcs[u])
    ensures AllFinished(s', side)
  {
    hide AllFinished;
    AllFull(s, side);
    FullFinished(s', side);
  }

  lemma FullFinished(s: State, side: Side)
    requires forall k :: 0 <= k < |side.claims| && k < |side.slots| ==> side.slots[k] == Full(side.claims[k])
    ensures AllFinished(s, side)
  {
  }

  /** Threads do not write to the flush buffer while it is read. */
  lemma ReaderSeesFull(n: nat, s: State, t: Thread)
    requires Inv(n, s) && t in s.pcs && IsFlusher(s.pcs[t]) && !s.pcs[t].Spinning?
    ensures !Waiting(s) && |s.flush.claims| <= |s.flush.slots|
    ensures forall k :: 0 <= k < |s.flush.claims| ==> s.flush.slots[k] == Full(s.flush.claims[k])
    ensures forall u :: u in s.pcs && HasClaim(s.pcs[u]) ==> s.pcs[u].c.b == s.event.id != s.flush.id
  {
    hide Locked, Counts, Progress, Conserved;
    forall u | u in s.pcs && IsFlusher(s.pcs[u]) ensures u == t {
    }
    forall k | 0 <= k < |s.flush.claims| ensures s.flush.slots[k] == Full(s.flush.claims[k]) {
      assert Finished(s, s.flush, k);
    }
    forall u | u in s.pcs && HasClaim(s.pcs[u]) ensures s.pcs[u].c.b == s.event.id {
      assert Owns(s, s.pcs[u]);
    }
  }

  lemma ReadStep(n: nat, s: State, t: Thread)
    requires Inv(n, s) && t in s.pcs && s.pcs[t].Reading? && s.pcs[t].i < s.pcs[t].copy
    ensures var pc := s.pcs[t]; Inv(n, Move(ReadSlot(s, pc.i), t, Reading(pc.i + 1, pc.copy)))
  {
    hide Locked, Counts, Waiting, AllFinished, Claims, OneFlusher;
    var Reading(i, copy) := s.pcs[t];
    var pc := Reading(i + 1, copy);
    var s' := Move(ReadSlot(s, i), t, pc);
    ReaderSeesFull(n, s, t);
    LockKept(s, s', t, pc);
    FlusherKept(s, s', t, pc);
    CountKept(s, s', t, pc);
    WaitingKept(s, s', t, pc);
    ClaimsKept(s, s', t, pc);
    FinishedKept(s, s', t, pc, s.event);
    assert s.flushing by { SpinnerFlushes(s, t); }
    FinishedKept(s, s', t, pc, s.flush);
    OutputGrows(s, s', i);
    assert s'.toFlush == s.flush.claims[i + 1..];
    assert Progress(s') by { ProgressMoves(s, s', t, pc); }
  }

  lemma OutputGrows(s: State, s': State, i: nat)
    requires Conserved(s) && i < |s.flush.claims| && s.toFlush == s.flush.claims[i..]
    requires s'.output == s.output + [Full(s.flush.claims[i])] && s'.toFlush == s.toFlush[1..]
    requires s'.accepted == s.accepted && s'.event == s.event
    ensures Conserved(s')
  {
    var n := |s.output|;
    var rest := s.accepted[n..];
    assert rest == [s.flush.claims[i]] + (s.toFlush[1..] + s.event.claims);
    assert s.accepted[n] == rest[0] && s.accepted[n + 1..] == rest[1..];
  }

  lemma ProgressMoves(s: State, s': State, t: Thread, pc: Pc)
    requires OneFlusher(s) && t in s.pcs && IsFlusher(s.pcs[t]) && s.flushing && s'.flushing
    requires s'.pcs == s.pcs[t := pc] && s'.flush == s.flush && ProgressAt(s', pc)
    ensures Progress(s')
  {
    forall u | u in s.pcs && IsFlusher(s.pcs[u]) ensures u == t {
    }
  }

  /** The flusher is done: another may start. */
  lemma EndStep(n: nat, s: State, t: Thread)
    requires Inv(n, s) && t in s.pcs && s.pcs[t].Ending?
    ensures Inv(n, Move(s.(holder := None, flushing := false), t, Idle))
  {
    hide Locked, Counts, Waiting, AllFinished, Claims;
    var s' := Move(s.(holder := None, flushing := false), t, Idle);
    LockKept(s, s', t, Idle);
    CountKept(s, s', t, Idle);
    WaitingKept(s, s', t, Idle);
    ClaimsKept(s, s', t, Idle);
    FinishedKept(s, s', t, Idle, s.event);
  }

  /** No step, by whichever thread, breaks the invariant. */
  lemma StepKeeps(n: nat, s: State, t: Thread, a: Action)
    requires Inv(n, s) && t in s.pcs && Step(n, s, t, a).Some?
    ensures Inv(n, Step(n, s, t, a).value)
  {
    if HasClaim(s.pcs[t]) || s.pcs[t].Checking? {
      WriterStepKeeps(n, s, t, a);
    } else if IsFlusher(s.pcs[t]) || s.pcs[t].Deciding? {
      FlusherStepKeeps(n, s, t, a);
    } else {
      hide Inv;
      if s.pcs[t].Idle? {
        assert s.pcs == s.pcs[t := Idle];
        IdleStepKeeps(n, s, t, a);
      } else {
        var pc := if s.pcs[t].WantFlush? then Deciding else Checking(s.pcs[t].e);
        QuietStep(n, s, t, Some(t), s.tracing, s.inProgress, pc);
      }
    }
  }

  lemma IdleStepKeeps(n: nat, s: State, t: Thread, a: Action)
    requires Inv(n, s) && t in s.pcs && s.pcs[t].Idle? && Step(n, s, t, a).Some?
    ensures Inv(n, Step(n, s, t, a).value)
  {
    hide Inv;
    match a
    case WriteEvent(e) => QuietStep(n, s, t, s.holder, s.tracing, s.inProgress, WantWrite(e));
    case Flush => QuietStep(n, s, t, s.holder, s.tracing, s.inProgress, WantFlush);
    case SetTracing(on) =>
      QuietStep(n, s, t, s.holder, on, s.inProgress, Idle);
      assert s.pcs[t := Idle] == s.pcs;
    case Go =>
  }

  lemma WriterStepKeeps(n: nat, s: State, t: Thread, a: Action)
    requires Inv(n, s) && t in s.pcs && Step(n, s, t, a).Some? && (HasClaim(s.pcs[t]) || s.pcs[t].Checking?)
    ensures Inv(n, Step(n, s, t, a).value)
  {
    hide Inv, TakeSlot, WriteSlot;
    match s.pcs[t]
    case Checking(e) =>
      if !s.tracing || s.count >= n {
        QuietStep(n, s, t, None, s.tracing, s.inProgress, Idle);
      } else {
        ClaimStep(n, s, t);
      }
    case Claimed(c) => QuietStep(n, s, t, s.holder, s.tracing, s.inProgress + 1, Counted(c));
    case Counted(c) => QuietStep(n, s, t, None, s.tracing, s.inProgress, Filling(c));
    case Filling(c) => WriteStep(n, s, t, Torn, Halfway(c));
    case Halfway(c) => WriteStep(n, s, t, Full(c.e), Filled(c));
    case Filled(c) => DoneStep(n, s, t);
  }

  lemma FlusherStepKeeps(n: nat, s: State, t: Thread, a: Action)
    requires Inv(n, s) && t in s.pcs && Step(n, s, t, a).Some? && (IsFlusher(s.pcs[t]) || s.pcs[t].Deciding?)
    ensures Inv(n, Step(n, s, t, a).value)
  {
    hide Inv, Swap, ReadSlot;
    match s.pcs[t]
    case Deciding =>
      if s.flushing {
        QuietStep(n, s, t, None, s.tracing, s.inProgress, Idle);
      } else {
        SwapStep(n, s, t);
      }
    case Spinning(copy) => if s.inProgress == 0 { DrainStep(n, s, t); }
    case Ending => EndStep(n, s, t);
    case _ => ReaderStepKeeps(n, s, t, a);
  }

  lemma ReaderStepKeeps(n: nat, s: State, t: Thread, a: Action)
    requires Inv(n, s) && t in s.pcs && Step(n, s, t, a).Some?
    requires s.pcs[t].Drained? || s.pcs[t].Reading? || s.pcs[t].WantEnd?
    ensures Inv(n, Step(n, s, t, a).value)
  {
    assert ProgressAt(s, s.pcs[t]);
    hide Inv, Swap, ReadSlot;
    match s.pcs[t]
    case Drained(copy) => QuietStep(n, s, t, None, s.tracing, s.inProgress, Reading(0, copy));
    case Reading(i, copy) =>
      if i >= copy {
        QuietStep(n, s, t, s.holder, s.tracing, s.inProgress, WantEnd);
      } else {
        ReadStep(n, s, t);
      }
    case WantEnd => QuietStep(n, s, t, Some(t), s.tracing, s.inProgress, Ending);
  }

  lemma InitInv(n: nat, s: State)
    requires Init(n, s)
    ensures Inv(n, s)
  {
    assert BusyThreads(s) == {};
    NothingToFinish(s, s.event);
  }

  // ---------------------------------------------------------------- every run

  /** A run: which thread takes which step. A step that cannot be taken is passed over. */
  function Run(n: nat, s: State, schedule: seq<(Thread, Action)>): State
    decreases |schedule|
  {
    if schedule == [] then s
    else
      var (t, a) := schedule[0];
      var next := if t in s.pcs && Step(n, s, t, a).Some? then Step(n, s, t, a).value else s;
      Run(n, next, schedule[1..])
  }

  lemma {:induction false} RunKeeps(n: nat, s: State, schedule: seq<(Thread, Action)>)
    requires Inv(n, s)
    ensures Inv(n, Run(n, s, schedule))
    decreases |schedule|
  {
    hide Inv, Step;
    if schedule != [] {
      var (t, a) := schedule[0];
      if t in s.pcs && Step(n, s, t, a).Some? {
        StepKeeps(n, s, t, a);
        RunKeeps(n, Step(n, s, t, a).value, schedule[1..]);
      } else {
        RunKeeps(n, s, schedule[1..]);
      }
    }
  }

  /** The event a slot holds; 0 for one that holds none. */
  function EventOf(slot: Slot): Event {
    if slot.Full? then slot.e else 0
  }

  /** The events of some slots. */
  function EventsOf(slots: seq<Slot>): seq<Event> {
    seq(|slots|, i requires 0 <= i < |slots| => EventOf(slots[i]))
  }

  /** In every interleaving: the accepted events are those written to the file, then those being
      flushed, then those in the event buffer, each once and in the order of their slots. */
  lemma NothingLost(n: nat, s: State, schedule: seq<(Thread, Action)>)
    requires Init(n, s)
    ensures var r := Run(n, s, schedule);
      && r.accepted == EventsOf(r.output) + r.toFlush + r.event.claims
      && (forall slot :: slot in r.output ==> slot.Full?)
      && |r.event.claims| == r.count <= n && (!r.flushing ==> r.toFlush == [])
  {
    hide Run, Inv, Init;
    InitInv(n, s);
    RunKeeps(n, s, schedule);
    InvConserves(n, Run(n, s, schedule));
  }

  lemma InvConserves(n: nat, r: State)
    requires Inv(n, r)
    ensures r.accepted == EventsOf(r.output) + r.toFlush + r.event.claims
    ensures forall slot :: slot in r.output ==> slot.Full?
    ensures |r.event.claims| == r.count <= n && (!r.flushing ==> r.toFlush == [])
  {
    hide AllFinished, Claims, Counts, OneFlusher, Locked, Progress;
    NotFlushing(r);
    EventsAccepted(r);
  }

  lemma EventsAccepted(r: State)
    requires Conserved(r)
    ensures r.accepted == EventsOf(r.output) + r.toFlush + r.event.claims
    ensures forall slot :: slot in r.output ==> slot.Full?
  {
    assert r.accepted == r.accepted[..|r.output|] + r.accepted[|r.output|..];
    assert EventsOf(r.output) == r.accepted[..|r.output|];
  }

  lemma NotFlushing(s: State)
    ensures Progress(s) && !s.flushing ==> s.toFlush == []
  {
  }

  /** In every interleaving: while a flusher reads, all slots it is going to read hold their
      whole events, and every thread that is writing writes to the other buffer. */
  lemma ReadsAreSafe(n: nat, s: State, schedule: seq<(Thread, Action)>, t: Thread)
    requires Init(n, s)
    requires var r := Run(n, s, schedule); t in r.pcs && r.pcs[t].Reading?
    ensures var r := Run(n, s, schedule);
      && r.pcs[t].i <= r.pcs[t].copy <= |r.flush.slots| && |r.toFlush| == r.pcs[t].copy - r.pcs[t].i
      && (forall k :: r.pcs[t].i <= k < r.pcs[t].copy ==>
            r.flush.slots[k].Full? && r.flush.slots[k].e == r.toFlush[k - r.pcs[t].i])
      && (forall u :: u in r.pcs && HasClaim(r.pcs[u]) ==> r.pcs[u].c.b != r.flush.id)
  {
    InitInv(n, s);
    RunKeeps(n, s, schedule);
    hide Run, AllFinished, Claims, Counts, OneFlusher, Locked;
    ReaderSeesFull(n, Run(n, s, schedule), t);
    assert ProgressAt(Run(n, s, schedule), Run(n, s, schedule).pcs[t]);
  }

  /** How many steps a thread with a claim has to take before it is done. */
  function Remaining(pc: Pc): nat {
    match pc
    case Filling(_) => 3
    case Halfway(_) => 2
    case Filled(_) => 1
    case _ => 0
  }

  /** The wait of a flusher that holds the mutex ends: whoever it waits for needs no mutex, can
      take a step, and is nearer to its end after it. */
  lemma SpinEnds(n: nat, s: State, schedule: seq<(Thread, Action)>, t: Thread, u: Thread)
    requires Init(n, s)
    requires var r := Run(n, s, schedule); t in r.pcs && r.pcs[t].Spinning? && u in r.pcs && Busy(r.pcs[u])
    ensures var r := Run(n, s, schedule);
      && Step(n, r, u, Go).Some? && Remaining(r.pcs[u]) > 0
      && Remaining(Step(n, r, u, Go).value.pcs[u]) < Remaining(r.pcs[u])
  {
    InitInv(n, s);
    RunKeeps(n, s, schedule);
    hide Run, AllFinished, Claims, Counts, OneFlusher, Conserved, WriteSlot;
  }

  /** The spinning flusher sees no event in progress exactly if no thread has a claim. */
  lemma SpinSeesZero(n: nat, s: State, schedule: seq<(Thread, Action)>, t: Thread)
    requires Init(n, s)
    requires var r := Run(n, s, schedule); t in r.pcs && r.pcs[t].Spinning?
    ensures var r := Run(n, s, schedule);
      r.inProgress == 0 <==> forall u :: u in r.pcs ==> !HasClaim(r.pcs[u])
  {
    InitInv(n, s);
    RunKeeps(n, s, schedule);
    var r := Run(n, s, schedule);
    hide Run, AllFinished, Claims, OneFlusher, Conserved, Progress;
    if r.inProgress == 0 {
      NobodyWrites(r, t);
    } else {
      assert BusyThreads(r) != {};
      var u :| u in BusyThreads(r);
    }
  }

  // ---------------------------------------------------------------- which events are accepted

  /** What a run from the start comes to. */
  ghost predicate Reachable(n: nat, s: State) {
    exists s0, schedule :: Init(n, s0) && s == Run(n, s0, schedule)
  }

  lemma ReachableInv(n: nat, s: State)
    requires Reachable(n, s)
    ensures Inv(n, s)
  {
    hide Inv, Run, Init;
    var s0, schedule :| Init(n, s0) && s == Run(n, s0, schedule);
    InitInv(n, s0);
    RunKeeps(n, s0, schedule);
  }

  /** An event is accepted in the step in which its writer has got the mutex, and in no other; that is if
      tracing is on and the event buffer has room. Otherwise the writer lets go of the mutex and is done,
      and nothing else changes. */
  lemma AcceptedExactly(n: nat, s: State, t: Thread, a: Action)
    requires Reachable(n, s) && t in s.pcs && Step(n, s, t, a).Some?
    ensures var s' := Step(n, s, t, a).value;
      if s.pcs[t].Checking? then
        if s.tracing && |s.event.claims| < n then
          && s'.accepted == s.accepted + [s.pcs[t].e] && s'.event.claims == s.event.claims + [s.pcs[t].e]
          && s'.pcs[t].Claimed? && s'.pcs[t].c == Claim(s.pcs[t].e, s.event.id, |s.event.claims|)
        else s' == s.(holder := None, pcs := s.pcs[t := Idle])
      else s'.accepted == s.accepted
  {
    ReachableInv(n, s);
    Room(n, s);
    hide Inv, Reachable;
  }

  lemma Room(n: nat, s: State)
    requires Inv(n, s)
    ensures |s.event.claims| == s.count <= n && |s.event.slots| == n && s.event.id != s.flush.id
  {
  }

  /** A thread comes to that step from a call for that event, when nobody has the mutex. */
  lemma CheckingMeans(n: nat, s: State, t: Thread, a: Action, s': State)
    requires t in s.pcs && Step(n, s, t, a) == Some(s') && t in s'.pcs
    requires s'.pcs[t].Checking? && !s.pcs[t].Checking?
    ensures s.pcs[t] == WantWrite(s'.pcs[t].e) && s.holder == None && s'.holder == Some(t)
  {
    hide WriteSlot, Swap, ReadSlot, TakeSlot;
  }

  /** Tracing is switched by mtr_start and mtr_stop, while nobody has the mutex, and by nothing else. */
  lemma TracingSwitched(n: nat, s: State, t: Thread, a: Action)
    requires t in s.pcs
    ensures if s.pcs[t] == Idle && a.SetTracing? then
              Step(n, s, t, a) == if s.holder == None then Some(s.(tracing := a.on)) else None
            else Step(n, s, t, a).Some? ==> Step(n, s, t, a).value.tracing == s.tracing
  {
    hide WriteSlot, ReadSlot;
    WritesSpareTracing(s);
  }

  lemma WritesSpareTracing(s: State)
    ensures forall c, slot :: WriteSlot(s, c, slot).tracing == s.tracing
    ensures forall i :: ReadSlot(s, i).tracing == s.tracing
  {
  }

  function Gos(t: Thread, k: nat): seq<(Thread, Action)> {
    if k == 0 then [] else [(t, Go)] + Gos(t, k - 1)
  }

  lemma RunOne(n: nat, s: State, t: Thread, a: Action, rest: seq<(Thread, Action)>, s': State)
    requires t in s.pcs && Step(n, s, t, a) == Some(s')
    ensures Run(n, s, [(t, a)] + rest) == Run(n, s', rest)
  {
    hide Step;
    assert ([(t, a)] + rest)[0] == (t, a) && ([(t, a)] + rest)[1..] == rest;
  }

  lemma RunGo(n: nat, s: State, t: Thread, k: nat, s': State)
    requires t in s.pcs && Step(n, s, t, Go) == Some(s')
    ensures Run(n, s, Gos(t, k + 1)) == Run(n, s', Gos(t, k))
  {
    hide Step, Run;
    RunOne(n, s, t, Go, Gos(t, k), s');
  }

  /** A writer that nobody disturbs: its event gets the next slot and is all there at the end, and nothing
      else is different; or, if tracing is off or there is no room, nothing is different at all. */
  lemma SoloWrite(n: nat, s: State, t: Thread, e: Event)
    requires Reachable(n, s) && t in s.pcs && s.pcs[t] == Idle && s.holder == None
    ensures var k := |s.event.claims|;
      if s.tracing && k < n then
        && k < |s.event.slots|
        && Run(n, s, [(t, WriteEvent(e))] + Gos(t, 7)) == s.(
          count := k + 1, accepted := s.accepted + [e],
          event := Side(s.event.id, s.event.slots[k := Full(e)], s.event.claims + [e]))
      else Run(n, s, [(t, WriteEvent(e))] + Gos(t, 2)) == s
  {
    hide Run, Reachable;
    ReachableInv(n, s);
    Room(n, s);
    hide Inv;
    var s1 := Move(s, t, WantWrite(e));
    var s2 := Move(s1.(holder := Some(t)), t, Checking(e));
    RunOne(n, s, t, WriteEvent(e), Gos(t, 7), s1);
    RunOne(n, s, t, WriteEvent(e), Gos(t, 2), s1);
    RunGo(n, s1, t, 6, s2);
    RunGo(n, s1, t, 1, s2);
    if s.tracing && |s.event.claims| < n {
      SoloFill(n, s, s2, t, e);
    } else {
      var s3 := Move(s2.(holder := None), t, Idle);
      RunGo(n, s2, t, 0, s3);
      assert Run(n, s3, Gos(t, 0)) == s3 by { NoGo(n, s3, t); }
      assert s3.pcs == s.pcs;
    }
  }

  lemma NoGo(n: nat, s: State, t: Thread)
    ensures Run(n, s, Gos(t, 0)) == s
  {
  }

  lemma SoloFill(n: nat, s: State, s2: State, t: Thread, e: Event)
    requires t in s.pcs && s.pcs[t] == Idle && s.holder == None && s.tracing
    requires |s.event.claims| == s.count < n == |s.event.slots| && s.event.id != s.flush.id
    requires s2 == Move(Move(s, t, WantWrite(e)).(holder := Some(t)), t, Checking(e))
    ensures var k := |s.event.claims|;
      Run(n, s2, Gos(t, 6)) == s.(
        count := k + 1, accepted := s.accepted + [e],
        event := Side(s.event.id, s.event.slots[k := Full(e)], s.event.claims + [e]))
  {
    hide Run;
    var k := s.count;
    var c := Claim(e, s.event.id, k);
    var s3 := Move(TakeSlot(s2, e), t, Claimed(c));
    var s4 := Move(s3.(inProgress := s3.inProgress + 1), t, Counted(c));
    var s5 := Move(s4.(holder := None), t, Filling(c));
    RunGo(n, s2, t, 5, s3);
    RunGo(n, s3, t, 4, s4);
    RunGo(n, s4, t, 3, s5);
    SoloSlot(n, s, s5, t, c);
  }

  lemma SoloSlot(n: nat, s: State, s5: State, t: Thread, c: Claim)
    requires t in s.pcs && s.pcs[t] == Idle && s.holder == None && s.count < |s.event.slots| && s.event.id != s.flush.id
    requires c.b == s.event.id && c.k == s.count
    requires s5 == s.(count := s.count + 1, accepted := s.accepted + [c.e], inProgress := s.inProgress + 1,
                      event := Side(s.event.id, s.event.slots, s.event.claims + [c.e]), pcs := s.pcs[t := Filling(c)])
    ensures Run(n, s5, Gos(t, 3)) == s.(
      count := s.count + 1, accepted := s.accepted + [c.e],
      event := Side(s.event.id, s.event.slots[s.count := Full(c.e)], s.event.claims + [c.e]))
  {
    hide Run;
    var s6 := Move(WriteSlot(s5, c, Torn), t, Halfway(c));
    var s7 := Move(WriteSlot(s6, c, Full(c.e)), t, Filled(c));
    var s8 := Move(s7.(inProgress := s7.inProgress - 1), t, Idle);
    RunGo(n, s5, t, 2, s6);
    RunGo(n, s6, t, 1, s7);
    RunGo(n, s7, t, 0, s8);
    NoGo(n, s8, t);
    assert s8.pcs == s.pcs;
    assert s7.event.slots == s.event.slots[s.count := Full(c.e)];
  }

  // ---------------------------------------------------------------- what a flush writes

  /** The events written and those on the way to the file are the same before and after every step, but for
      the one that swaps the buffers: then all pending events, and no others, are on the way. */
  lemma OnlySwapsAdd(n: nat, s: State, t: Thread, a: Action)
    requires Reachable(n, s) && t in s.pcs && Step(n, s, t, a).Some?
    ensures var s' := Step(n, s, t, a).value;
      if s.pcs[t].Deciding? && !s.flushing then
        s.toFlush == [] && s'.output == s.output && s'.toFlush == s.event.claims && s'.event.claims == []
      else EventsOf(s'.output) + s'.toFlush == EventsOf(s.output) + s.toFlush
  {
    ReachableInv(n, s);
    if s.pcs[t].Reading? && s.pcs[t].i < s.pcs[t].copy {
      ReadMoves(n, s, t);
    } else {
      NotFlushing(s);
      assert Progress(s);
      hide Inv, Reachable, WriteSlot;
      WritesSpareOutput(s);
    }
  }

  lemma WritesSpareOutput(s: State)
    ensures forall c, v :: WriteSlot(s, c, v).output == s.output && WriteSlot(s, c, v).toFlush == s.toFlush
  {
  }

  lemma ReadMoves(n: nat, s: State, t: Thread)
    requires Inv(n, s) && t in s.pcs && s.pcs[t].Reading? && s.pcs[t].i < s.pcs[t].copy
    ensures var s' := ReadSlot(s, s.pcs[t].i);
      && s.toFlush != [] && s'.output == s.output + [Full(s.toFlush[0])] && s'.toFlush == s.toFlush[1..]
      && EventsOf(s'.output) + s'.toFlush == EventsOf(s.output) + s.toFlush
  {
    var i := s.pcs[t].i;
    ReaderSeesFull(n, s, t);
    assert ProgressAt(s, s.pcs[t]);
    hide Inv;
    var s' := ReadSlot(s, i);
    assert s.toFlush[0] == s.flush.claims[i];
    assert EventsOf(s'.output) == EventsOf(s.output) + [s.toFlush[0]];
    assert EventsOf(s.output) + [s.toFlush[0]] + s.toFlush[1..] == EventsOf(s.output) + s.toFlush;
  }

  /** A flush that nobody disturbs writes exactly the pending events, in their order, and leaves the event
      buffer empty. */
  lemma SoloFlush(n: nat, s: State, t: Thread)
    requires Reachable(n, s) && t in s.pcs && s.pcs[t] == Idle && s.holder == None && !s.flushing && s.inProgress == 0
    ensures var k := |s.event.claims|;
      var r := Run(n, s, [(t, Flush)] + Gos(t, k + 7));
      && EventsOf(r.output) == EventsOf(s.output) + s.event.claims && r.event.claims == [] && r.toFlush == []
      && r.accepted == s.accepted && t in r.pcs && r.pcs[t] == Idle
      && r.holder == None && !r.flushing && r.inProgress == 0
  {
    hide Run, Reachable;
    ReachableInv(n, s);
    Room(n, s);
    NotFlushing(s);
    var k := |s.event.claims|;
    var s1 := Move(s, t, WantFlush);
    var s2 := Move(s1.(holder := Some(t)), t, Deciding);
    StepKeeps(n, s, t, Flush);
    StepKeeps(n, s1, t, Go);
    RunOne(n, s, t, Flush, Gos(t, k + 7), s1);
    RunGo(n, s1, t, k + 6, s2);
    hide Inv;
    SoloSwap(n, s2, t);
  }

  lemma SoloSwap(n: nat, s: State, t: Thread)
    requires Inv(n, s) && t in s.pcs && s.pcs[t].Deciding? && s.holder == Some(t) && !s.flushing && s.inProgress == 0
    ensures var k := |s.event.claims|;
      var r := Run(n, s, Gos(t, k + 6));
      && EventsOf(r.output) == EventsOf(s.output) + s.event.claims && r.event.claims == [] && r.toFlush == []
      && r.accepted == s.accepted && t in r.pcs && r.pcs[t] == Idle
      && r.holder == None && !r.flushing && r.inProgress == 0
  {
    hide Run, Step, Inv;
    Room(n, s);
    var k := |s.event.claims|;
    var s3 := Move(Swap(s), t, Spinning(k));
    SwapTaken(n, s, t);
    StepKeeps(n, s, t, Go);
    RunGo(n, s, t, k + 5, s3);
    SoloDrain(n, s3, t, k);
    assert EventsOf(s3.output) + s3.toFlush == EventsOf(s.output) + s.event.claims;
  }

  lemma SwapTaken(n: nat, s: State, t: Thread)
    requires t in s.pcs && s.pcs[t].Deciding? && !s.flushing
    ensures Step(n, s, t, Go) == Some(Move(Swap(s), t, Spinning(s.count)))
  {
  }

  lemma SoloDrain(n: nat, s: State, t: Thread, k: nat)
    requires Inv(n, s) && t in s.pcs && s.pcs[t] == Spinning(k) && s.inProgress == 0
    ensures var r := Run(n, s, Gos(t, k + 5));
      && EventsOf(r.output) == EventsOf(s.output) + s.toFlush && r.event.claims == s.event.claims && r.toFlush == []
      && r.accepted == s.accepted && t in r.pcs && r.pcs[t] == Idle
      && r.holder == None && !r.flushing && r.inProgress == 0
  {
    hide Run, Inv;
    var s4 := Move(s, t, Drained(k));
    var s5 := Move(s4.(holder := None), t, Reading(0, k));
    StepKeeps(n, s, t, Go);
    StepKeeps(n, s4, t, Go);
    RunGo(n, s, t, k + 4, s4);
    RunGo(n, s4, t, k + 3, s5);
    SoloRead(n, s5, t);
  }

  lemma {:induction false} SoloRead(n: nat, s: State, t: Thread)
    requires Inv(n, s) && t in s.pcs && s.pcs[t].Reading? && s.holder == None && s.inProgress == 0
    requires s.pcs[t].i <= s.pcs[t].copy
    ensures var r := Run(n, s, Gos(t, s.pcs[t].copy - s.pcs[t].i + 3));
      && EventsOf(r.output) == EventsOf(s.output) + s.toFlush && r.event.claims == s.event.claims && r.toFlush == []
      && r.accepted == s.accepted && t in r.pcs && r.pcs[t] == Idle
      && r.holder == None && !r.flushing && r.inProgress == 0
    decreases s.pcs[t].copy - s.pcs[t].i
  {
    hide Run;
    var Reading(i, copy) := s.pcs[t];
    assert ProgressAt(s, s.pcs[t]);
    if i < copy {
      var s' := Move(ReadSlot(s, i), t, Reading(i + 1, copy));
      ReadMoves(n, s, t);
      StepKeeps(n, s, t, Go);
      RunGo(n, s, t, copy - i + 2, s');
      hide Inv;
      SoloRead(n, s', t);
    } else {
      hide Inv;
      var s1 := Move(s, t, WantEnd);
      var s2 := Move(s1.(holder := Some(t)), t, Ending);
      var s3 := Move(s2.(holder := None, flushing := false), t, Idle);
      RunGo(n, s, t, 2, s1);
      RunGo(n, s1, t, 1, s2);
      RunGo(n, s2, t, 0, s3);
      NoGo(n, s3, t);
      assert EventsOf(s.output) + [] == EventsOf(s.output);
    }
  }
}

/** The locks of the blackboard (blackboard.h, blackboard.cpp): any number of threads call set,
    get, createEntry, unset, cloneInto and debugMessage on the boards of a forest, in every
    interleaving. A lookup's outcome is left open, so every outcome is covered. */
module BlackboardLocks {

  type Board = nat
  type Entry = nat
  type Thread = nat

  datatype Option<+T> = None | Some(value: T)

  /** storage_mutex_ of a board, entry_mutex of an entry. */
  datatype Lock = Storage(b: Board) | OfEntry(e: Entry)

  datatype Want = Want(lock: Lock, unique: bool)

  /** The boards: their parents, and how deep they lie. */
  datatype Forest = Forest(parent: map<Board, Board>, depth: map<Board, nat>, bound: nat)

  predicate Rooted(f: Forest) {
    && (forall b :: b in f.parent ==> b in f.depth && f.parent[b] in f.depth && f.depth[f.parent[b]] < f.depth[b])
    && forall b :: b in f.depth ==> f.depth[b] < f.bound
  }

  /** Where a thread is. The first arguments are what it holds: an entry, the board that
      debugMessage is at, the boards createEntryImpl came through. */
  datatype Pc =
    | Idle
    | GetWant(entry: Option<Entry>, debug: Option<Board>, b: Board)      // getEntry, at the lock of b
    | GetHave(entry: Option<Entry>, debug: Option<Board>, b: Board)
    | EntryWant(e: Entry)                                                // get or set, at the lock of the entry
    | EntryHave(e: Entry)
    | DebugWant(entry: Option<Entry>, b: Board)                          // debugMessage, at the lock of b
    | DebugHave(entry: Option<Entry>, b: Board)
    | SetWant(b: Board)
    | SetHave(b: Board)
    | CreateWant(chain: seq<Board>, b: Board)                            // createEntryImpl, at the lock of b
    | CreateHave(chain: seq<Board>, b: Board)
    | Unwinding(chain: seq<Board>, found: Option<Entry>)                 // createEntryImpl returns
    | UnsetWant(b: Board)
    | UnsetHave(b: Board)
    | BothWant(dst: Board, first: Want, second: Want)                    // std::lock, at the first, holding neither
    | BothTry(dst: Board, first: Want, second: Want)                     // std::lock, about to try the second
    | BothHave(dst: Board, first: Want, second: Want)
    | Copying(dst: Board)                                                // cloneInto, between two entries
    | CopyWant(dst: Board, e: Entry)                                     // cloneInto, at the lock of an entry to copy
    | CopyHave(dst: Board, e: Entry)
    | InsertWant(dst: Board)                                             // cloneInto, at the lock of dst
    | InsertHave(dst: Board)

  /** What a thread does next, where there is a choice. */
  datatype Choice =
    | Get(b: Board) | Set(b: Board) | Create(b: Board) | Unset(b: Board) | Debug(b: Board)
    | Clone(src: Board, dst: Board)
    | Found(e: Entry)                    // the entry is there
    | PassOn(to: Board)                  // go on at a board further up
    | Done                               // return
    | Nothing                            // return, with nothing to insert or remove
    | CopyPair(src: Entry, dst: Entry)   // overwrite an entry
    | CopyNew(src: Entry)                // make a new entry

  type State = map<Thread, Pc>

  predicate Above(f: Forest, b: Board, to: Board)
    requires Rooted(f)
    decreases if b in f.depth then f.depth[b] else 0
  {
    b in f.parent && (f.parent[b] == to || Above(f, f.parent[b], to))
  }

  /** The lock at which the thread waits. */
  function Wants(pc: Pc): Option<Want> {
    match pc
    case GetWant(_, _, b) => Some(Want(Storage(b), false))
    case EntryWant(e) => Some(Want(OfEntry(e), true))
    case DebugWant(_, b) => Some(Want(Storage(b), false))
    case SetWant(b) => Some(Want(Storage(b), false))
    case CreateWant(_, b) => Some(Want(Storage(b), true))
    case UnsetWant(b) => Some(Want(Storage(b), true))
    case BothWant(_, first, _) => Some(first)
    case CopyWant(_, e) => Some(Want(OfEntry(e), true))
    case InsertWant(dst) => Some(Want(Storage(dst), true))
    case _ => None
  }

  predicate HoldsEntry(entry: Option<Entry>, w: Want) {
    entry.Some? && w == Want(OfEntry(entry.value), true)
  }

  predicate HoldsShared(b: Board, w: Want) {
    w == Want(Storage(b), false)
  }

  predicate HoldsChain(chain: seq<Board>, w: Want) {
    w.unique && w.lock.Storage? && w.lock.b in chain
  }

  predicate Holds(pc: Pc, w: Want) {
    match pc
    case GetWant(entry, debug, _) => HoldsEntry(entry, w) || (debug.Some? && HoldsShared(debug.value, w))
    case GetHave(entry, debug, b) =>
      HoldsEntry(entry, w) || (debug.Some? && HoldsShared(debug.value, w)) || HoldsShared(b, w)
    case EntryHave(e) => w == Want(OfEntry(e), true)
    case DebugWant(entry, _) => HoldsEntry(entry, w)
    case DebugHave(entry, b) => HoldsEntry(entry, w) || HoldsShared(b, w)
    case SetHave(b) => HoldsShared(b, w)
    case CreateWant(chain, _) => HoldsChain(chain, w)
    case CreateHave(chain, b) => HoldsChain(chain + [b], w)
    case Unwinding(chain, _) => HoldsChain(chain, w)
    case UnsetHave(b) => w == Want(Storage(b), true)
    case BothTry(_, first, _) => w == first
    case BothHave(_, first, second) => w == first || w == second
    case CopyHave(_, e) => w == Want(OfEntry(e), true)
    case InsertHave(dst) => w == Want(Storage(dst), true)
    case _ => false
  }

  /** Nobody else holds the lock in a way that rules w out: there is one writer, or readers. */
  ghost predicate Free(s: State, t: Thread, w: Want) {
    forall u, v :: u in s && u != t && Holds(s[u], v) && v.lock == w.lock ==> !v.unique && !w.unique
  }

  /** The thread has got the lock it waited for. */
  function Acquired(pc: Pc): Pc {
    match pc
    case GetWant(entry, debug, b) => GetHave(entry, debug, b)
    case EntryWant(e) => EntryHave(e)
    case DebugWant(entry, b) => DebugHave(entry, b)
    case SetWant(b) => SetHave(b)
    case CreateWant(chain, b) => CreateHave(chain, b)
    case UnsetWant(b) => UnsetHave(b)
    case BothWant(dst, first, second) => BothTry(dst, first, second)
    case CopyWant(dst, e) => CopyHave(dst, e)
    case InsertWant(dst) => InsertHave(dst)
    case _ => pc
  }

  /** Where a thread goes that is not calling anything. */
  function Start(f: Forest, c: Choice): Option<Pc> {
    match c
    case Get(b) => if b in f.depth then Some(GetWant(None, None, b)) else None
    case Set(b) => if b in f.depth then Some(SetWant(b)) else None
    case Create(b) => if b in f.depth then Some(CreateWant([], b)) else None
    case Unset(b) => if b in f.depth then Some(UnsetWant(b)) else None
    case Debug(b) => if b in f.depth then Some(DebugWant(None, b)) else None
    case Clone(src, dst) =>
      if src in f.depth && dst in f.depth && src != dst then
        Some(BothWant(dst, Want(Storage(src), false), Want(Storage(dst), true)))
      else None
    case _ => None
  }

  /** Where a thread goes when getEntry returns: on with debugMessage, back to the script that
      holds an entry, to the entry that was found. */
  function Returned(entry: Option<Entry>, debug: Option<Board>, found: Option<Entry>): Pc {
    if debug.Some? then DebugHave(entry, debug.value)
    else if entry.Some? then EntryHave(entry.value)
    else if found.Some? then EntryWant(found.value)
    else Idle
  }

  /** The next step of a thread that waits for nothing, but for the second lock of std::lock. */
  function Next(f: Forest, pc: Pc, c: Choice): Option<Pc>
    requires Rooted(f)
  {
    match pc
    case Idle => Start(f, c)
    case GetHave(entry, debug, b) => (
      match c
      case PassOn(to) => if Above(f, b, to) then Some(GetWant(entry, debug, to)) else None
      case Found(e) => Some(Returned(entry, debug, Some(e)))
      case Done => Some(Returned(entry, debug, None))
      case _ => None)
    case EntryHave(e) => (
      match c
      case Get(b) => if b in f.depth then Some(GetWant(Some(e), None, b)) else None    // ExprAssignment::evaluate
      case Debug(b) => if b in f.depth then Some(DebugWant(Some(e), b)) else None      // set, on a type mismatch
      case Done => Some(Idle)
      case _ => None)
    case DebugHave(entry, b) => (
      match c
      case PassOn(to) => if Above(f, b, to) then Some(GetWant(entry, Some(b), to)) else None
      case Done => Some(if entry.Some? then EntryHave(entry.value) else Idle)
      case _ => None)
    case SetHave(b) => Some(if c.Found? then EntryWant(c.e) else CreateWant([], b))
    case CreateHave(chain, b) => (
      match c
      case PassOn(to) => if b in f.parent && to == f.parent[b] then Some(CreateWant(chain + [b], to)) else None
      case Found(e) => Some(Unwinding(chain + [b], Some(e)))    // for set
      case Done => Some(Unwinding(chain + [b], None))           // for createEntry, or an error
      case _ => None)
    case Unwinding(chain, found) =>
      Some(if chain != [] then Unwinding(chain[..|chain| - 1], found)
           else if found.Some? then EntryWant(found.value) else Idle)
    case UnsetHave(b) => Some(Idle)
    case BothHave(dst, _, _) => Some(Copying(dst))
    case Copying(dst) => (
      match c
      case CopyPair(src, e) =>
        if src != e then Some(BothWant(dst, Want(OfEntry(src), true), Want(OfEntry(e), true))) else None
      case CopyNew(src) => Some(CopyWant(dst, src))
      case Done => Some(InsertWant(dst))
      case Nothing => Some(Idle)
      case _ => None)
    case CopyHave(dst, _) => Some(Copying(dst))
    case InsertHave(_) => Some(Idle)
    case _ => None
  }

  ghost function Step(f: Forest, s: State, t: Thread, c: Choice): Option<State>
    requires Rooted(f) && t in s
  {
    var pc := s[t];
    if Wants(pc).Some? then
      if Free(s, t, Wants(pc).value) then Some(s[t := Acquired(pc)]) else None
    else if pc.BothTry? then
      if Free(s, t, pc.second) then Some(s[t := BothHave(pc.dst, pc.first, pc.second)])
      else Some(s[t := BothWant(pc.dst, pc.second, pc.first)])
    else
      match Next(f, pc, c)
      case Some(next) => Some(s[t := next])
      case None => None
  }

  datatype Label = Label(t: Thread, c: Choice)

  ghost function Run(f: Forest, s: State, schedule: seq<Label>): State
    requires Rooted(f)
    decreases |schedule|
  {
    if schedule == [] then s
    else
      var next := if schedule[0].t in s then Step(f, s, schedule[0].t, schedule[0].c) else None;
      Run(f, if next.Some? then next.value else s, schedule[1..])
  }

  // ---------------------------------------------------------------- the order of the locks

  /** Entries come before boards, and boards before those less deep. */
  function Rank(f: Forest, lock: Lock): nat {
    match lock
    case OfEntry(_) => f.bound
    case Storage(b) => if b in f.depth then f.depth[b] else f.bound
  }

  predicate ChainOk(f: Forest, chain: seq<Board>, b: Board)
    requires b in f.depth
  {
    forall c :: c in chain ==> c in f.depth && f.depth[b] < f.depth[c]
  }

  predicate PairOk(f: Forest, dst: Board, first: Want, second: Want) {
    && dst in f.depth && first.lock != second.lock
    && (first.lock.Storage? ==> first.lock.b in f.depth) && (second.lock.Storage? ==> second.lock.b in f.depth)
  }

  /** What the boards in a thread's hands are to each other. */
  predicate PcOk(f: Forest, pc: Pc) {
    match pc
    case GetWant(_, debug, b) =>
      b in f.depth && (debug.Some? ==> debug.value in f.depth && f.depth[b] < f.depth[debug.value])
    case GetHave(_, debug, b) =>
      b in f.depth && (debug.Some? ==> debug.value in f.depth && f.depth[b] < f.depth[debug.value])
    case DebugWant(_, b) => b in f.depth
    case DebugHave(_, b) => b in f.depth
    case SetWant(b) => b in f.depth
    case SetHave(b) => b in f.depth
    case CreateWant(chain, b) => b in f.depth && ChainOk(f, chain, b)
    case CreateHave(chain, b) => b in f.depth && ChainOk(f, chain, b)
    case UnsetWant(b) => b in f.depth
    case BothWant(dst, first, second) => PairOk(f, dst, first, second)
    case BothTry(dst, first, second) => PairOk(f, dst, first, second)
    case BothHave(dst, _, _) => dst in f.depth
    case Copying(dst) => dst in f.depth
    case CopyWant(dst, _) => dst in f.depth
    case CopyHave(dst, _) => dst in f.depth
    case InsertWant(dst) => dst in f.depth
    case _ => true
  }

  /** A thread that waits for a lock holds only locks that come before it. */
  lemma WaitsInOrder(f: Forest, pc: Pc, v: Want)
    requires Rooted(f) && PcOk(f, pc) && Wants(pc).Some? && Holds(pc, v)
    ensures Rank(f, Wants(pc).value.lock) < Rank(f, v.lock)
  {
  }

  lemma {:induction false} AboveIsHigher(f: Forest, b: Board, to: Board)
    requires Rooted(f) && Above(f, b, to)
    ensures b in f.depth && to in f.depth && f.depth[to] < f.depth[b]
    decreases if b in f.depth then f.depth[b] else 0
  {
    if f.parent[b] != to {
      AboveIsHigher(f, f.parent[b], to);
    }
  }

  lemma NextOk(f: Forest, pc: Pc, c: Choice)
    requires Rooted(f) && PcOk(f, pc) && Next(f, pc, c).Some?
    ensures PcOk(f, Next(f, pc, c).value)
  {
    if c.PassOn? && (pc.GetHave? || pc.DebugHave?) {
      AboveIsHigher(f, pc.b, c.to);
    }
  }

  // ---------------------------------------------------------------- every run

  /** A lock is held by one writer, or by readers. */
  ghost predicate Exclusive(s: State) {
    forall t, u, v, w :: t in s && u in s && t != u && Holds(s[t], v) && Holds(s[u], w) && v.lock == w.lock ==>
      !v.unique && !w.unique
  }

  ghost predicate Inv(f: Forest, s: State) {
    (forall t :: t in s ==> PcOk(f, s[t])) && Exclusive(s)
  }

  /** A step adds at most the lock that was waited for or tried. */
  lemma NextHolds(f: Forest, pc: Pc, c: Choice, w: Want)
    requires Rooted(f) && Next(f, pc, c).Some? && Holds(Next(f, pc, c).value, w)
    ensures Holds(pc, w)
  {
  }

  lemma AcquiredHolds(pc: Pc, w: Want)
    requires Wants(pc).Some? && Holds(Acquired(pc), w)
    ensures Holds(pc, w) || w == Wants(pc).value
  {
  }

  lemma AcquiredOk(f: Forest, pc: Pc)
    requires PcOk(f, pc) && Wants(pc).Some?
    ensures PcOk(f, Acquired(pc))
  {
  }

  /** The other threads leave room for what thread t comes to hold. */
  lemma ExclusiveKept(s: State, t: Thread, pc: Pc, extra: Option<Want>)
    requires Exclusive(s) && t in s
    requires forall w :: Holds(pc, w) ==> Holds(s[t], w) || (extra.Some? && w == extra.value)
    requires extra.Some? ==> Free(s, t, extra.value)
    ensures Exclusive(s[t := pc])
  {
    hide Holds;
  }

  lemma StepKeeps(f: Forest, s: State, t: Thread, c: Choice)
    requires Rooted(f) && Inv(f, s) && t in s && Step(f, s, t, c).Some?
    ensures Inv(f, Step(f, s, t, c).value)
  {
    hide Exclusive, Next, Holds, Free, PcOk, Acquired, Wants;
    var pc := s[t];
    if Wants(pc).Some? {
      AcquiredOk(f, pc);
      forall w | Holds(Acquired(pc), w) ensures Holds(pc, w) || w == Wants(pc).value {
        AcquiredHolds(pc, w);
      }
      ExclusiveKept(s, t, Acquired(pc), Wants(pc));
    } else if pc.BothTry? {
      var next :=
        if Free(s, t, pc.second) then BothHave(pc.dst, pc.first, pc.second)
        else BothWant(pc.dst, pc.second, pc.first);
      TryOk(f, pc);
      forall w | Holds(next, w) ensures Holds(pc, w) || (next.BothHave? && w == pc.second) {
        TryHolds(pc, w);
      }
      ExclusiveKept(s, t, next, if next.BothHave? then Some(pc.second) else None);
    } else {
      NextOk(f, pc, c);
      var next := Next(f, pc, c).value;
      forall w | Holds(next, w) ensures Holds(pc, w) {
        NextHolds(f, pc, c, w);
      }
      ExclusiveKept(s, t, next, None);
    }
  }

  lemma TryOk(f: Forest, pc: Pc)
    requires pc.BothTry? && PcOk(f, pc)
    ensures PcOk(f, BothHave(pc.dst, pc.first, pc.second)) && PcOk(f, BothWant(pc.dst, pc.second, pc.first))
  {
  }

  lemma TryHolds(pc: Pc, w: Want)
    requires pc.BothTry?
    ensures Holds(BothHave(pc.dst, pc.first, pc.second), w) ==> Holds(pc, w) || w == pc.second
    ensures !Holds(BothWant(pc.dst, pc.second, pc.first), w)
  {
  }

  predicate AllIdle(s: State) {
    forall t :: t in s ==> s[t] == Idle
  }

  lemma {:induction false} RunKeeps(f: Forest, s: State, schedule: seq<Label>)
    requires Rooted(f) && Inv(f, s)
    ensures Inv(f, Run(f, s, schedule))
    decreases |schedule|
  {
    hide Inv, Step;
    if schedule != [] {
      var l := schedule[0];
      if l.t in s && Step(f, s, l.t, l.c).Some? {
        StepKeeps(f, s, l.t, l.c);
        RunKeeps(f, Step(f, s, l.t, l.c).value, schedule[1..]);
      } else {
        RunKeeps(f, s, schedule[1..]);
      }
    }
  }

  lemma Reachable(f: Forest, s: State, schedule: seq<Label>)
    requires Rooted(f) && AllIdle(s)
    ensures Inv(f, Run(f, s, schedule))
  {
    RunKeeps(f, s, schedule);
  }

  /** Whoever waits for the lock of an entry holds no lock at all; whoever waits for the lock of a
      board holds, of boards, only deeper ones. */
  lemma Discipline(f: Forest, s: State, schedule: seq<Label>, t: Thread, v: Want)
    requires Rooted(f) && AllIdle(s)
    requires var r := Run(f, s, schedule); t in r && Wants(r[t]).Some? && Holds(r[t], v)
    ensures var w := Wants(Run(f, s, schedule)[t]).value;
      && w.lock.Storage?
      && (v.lock.Storage? ==> w.lock.b in f.depth && v.lock.b in f.depth && f.depth[w.lock.b] < f.depth[v.lock.b])
  {
    hide Run, Holds, Wants, Exclusive;
    Reachable(f, s, schedule);
    var pc := Run(f, s, schedule)[t];
    WaitsInOrder(f, pc, v);
    if v.lock.Storage? {
      HeldKnown(f, pc, v);
    }
  }

  lemma HeldKnown(f: Forest, pc: Pc, v: Want)
    requires PcOk(f, pc) && Holds(pc, v) && v.lock.Storage? && Wants(pc).Some?
    ensures v.lock.b in f.depth
  {
  }

  // ---------------------------------------------------------------- no deadlock

  /** Thread t waits for a lock that u holds in its way. */
  ghost predicate WaitsFor(s: State, t: Thread, u: Thread) {
    && t in s && u in s && t != u && Wants(s[t]).Some?
    && exists v :: Holds(s[u], v) && v.lock == Wants(s[t]).value.lock && (v.unique || Wants(s[t]).value.unique)
  }

  lemma WaitingRises(f: Forest, s: State, t: Thread, u: Thread)
    requires Rooted(f) && Inv(f, s) && WaitsFor(s, t, u) && Wants(s[u]).Some?
    ensures Rank(f, Wants(s[u]).value.lock) < Rank(f, Wants(s[t]).value.lock)
  {
    hide Exclusive, Wants, Holds, PcOk, Rank;
    var v :| Holds(s[u], v) && v.lock == Wants(s[t]).value.lock && (v.unique || Wants(s[t]).value.unique);
    WaitsInOrder(f, s[u], v);
  }

  ghost predicate Chain(s: State, ts: seq<Thread>) {
    forall i :: 0 <= i < |ts| - 1 ==> WaitsFor(s, ts[i], ts[i + 1])
  }

  lemma {:induction false} ChainRises(f: Forest, s: State, ts: seq<Thread>)
    requires Rooted(f) && Inv(f, s) && |ts| >= 2 && Chain(s, ts) && ts[|ts| - 1] in s && Wants(s[ts[|ts| - 1]]).Some?
    ensures ts[0] in s && Wants(s[ts[0]]).Some?
    ensures Rank(f, Wants(s[ts[|ts| - 1]]).value.lock) < Rank(f, Wants(s[ts[0]]).value.lock)
    decreases |ts|
  {
    hide Inv, Rank, Wants;
    assert WaitsFor(s, ts[0], ts[1]);
    if |ts| == 2 {
      WaitingRises(f, s, ts[0], ts[1]);
    } else {
      ChainRises(f, s, ts[1..]);
      WaitingRises(f, s, ts[0], ts[1]);
    }
  }

  /** The threads never wait for each other in a circle. */
  lemma NoCycle(f: Forest, s: State, schedule: seq<Label>, ts: seq<Thread>)
    requires Rooted(f) && AllIdle(s) && |ts| >= 2 && Chain(Run(f, s, schedule), ts)
    ensures ts[0] != ts[|ts| - 1]
  {
    hide Run, Inv, WaitsFor, Rank, Wants;
    Reachable(f, s, schedule);
    var r := Run(f, s, schedule);
    if ts[0] == ts[|ts| - 1] {
      assert WaitsFor(r, ts[0], ts[1]);
      WaiterKnown(r, ts[0], ts[1]);
      ChainRises(f, r, ts);
    }
  }

  lemma WaiterKnown(s: State, t: Thread, u: Thread)
    requires WaitsFor(s, t, u)
    ensures t in s && Wants(s[t]).Some?
  {
  }

  lemma NotFree(s: State, t: Thread, w: Want) returns (u: Thread)
    requires t in s && Wants(s[t]) == Some(w) && !Free(s, t, w)
    ensures WaitsFor(s, t, u) && s[u] != Idle
  {
    hide Wants;
    var u', v :| u' in s && u' != t && Holds(s[u'], v) && v.lock == w.lock && (v.unique || w.unique);
    u := u';
  }

  lemma CanGoOn(f: Forest, pc: Pc) returns (c: Choice)
    requires Rooted(f) && pc != Idle && Wants(pc) == None && !pc.BothTry?
    ensures Next(f, pc, c).Some?
  {
    c := Done;
  }

  /** The thread would take a lock as a reader that another waits for as a writer: there a
      shared_mutex may make it wait. */
  ghost predicate KeptOut(s: State, t: Thread) {
    && t in s && Wants(s[t]).Some? && !Wants(s[t]).value.unique
    && exists w :: w in s && Wants(s[w]) == Some(Want(Wants(s[t]).value.lock, true))
  }

  lemma WriterOf(s: State, t: Thread) returns (w: Thread)
    requires KeptOut(s, t)
    ensures w in s && Wants(s[w]).Some? && Wants(s[w]).value.lock == Wants(s[t]).value.lock && Wants(s[w]).value.unique
    ensures !KeptOut(s, w)
  {
    hide Wants;
    var w' :| w' in s && Wants(s[w']) == Some(Want(Wants(s[t]).value.lock, true));
    w := w';
  }

  lemma FreeSteps(f: Forest, s: State, t: Thread)
    requires Rooted(f) && t in s && Wants(s[t]).Some? && Free(s, t, Wants(s[t]).value)
    ensures Step(f, s, t, Done).Some? && s[t] != Idle
  {
    hide Free;
  }

  /** From any thread that is in a call, one can follow the waiting to a thread that can step, and
      that no writer keeps out. */
  lemma FindRunnable(f: Forest, s: State, t: Thread) returns (u: Thread, c: Choice)
    requires Rooted(f) && Inv(f, s) && t in s && s[t] != Idle
    ensures u in s && s[u] != Idle && Step(f, s, u, c).Some? && !KeptOut(s, u)
    decreases if Wants(s[t]).Some? then Rank(f, Wants(s[t]).value.lock) + 1 else 0, 1
  {
    hide Inv, Holds, Free, Rank, Wants, Next;
    if Wants(s[t]).Some? {
      hide Step, KeptOut;
      var w := t;
      if KeptOut(s, t) {
        w := WriterOf(s, t);
      }
      if Free(s, w, Wants(s[w]).value) {
        FreeSteps(f, s, w);
        u, c := w, Done;
      } else {
        u, c := FollowWaiting(f, s, w);
      }
    } else {
      u, c := t, Done;
      if !s[t].BothTry? {
        c := CanGoOn(f, s[t]);
      }
    }
  }

  lemma FollowWaiting(f: Forest, s: State, t: Thread) returns (u: Thread, c: Choice)
    requires Rooted(f) && Inv(f, s) && t in s && Wants(s[t]).Some? && !Free(s, t, Wants(s[t]).value)
    ensures u in s && s[u] != Idle && Step(f, s, u, c).Some? && !KeptOut(s, u)
    decreases Rank(f, Wants(s[t]).value.lock) + 1, 0
  {
    hide Inv, Next, Holds, Free, Rank, Wants, Step, KeptOut;
    var v := NotFree(s, t, Wants(s[t]).value);
    if Wants(s[v]).Some? {
      WaitingRises(f, s, t, v);
    }
    u, c := FindRunnable(f, s, v);
  }

  /** There is no deadlock: as long as some thread is in a call, some thread that is in a call
      can take a step, even if readers are kept out where a writer waits. */
  lemma NoDeadlock(f: Forest, s: State, schedule: seq<Label>)
    requires Rooted(f) && AllIdle(s) && !AllIdle(Run(f, s, schedule))
    ensures var r := Run(f, s, schedule);
      exists u, c :: u in r && r[u] != Idle && Step(f, r, u, c).Some? && !KeptOut(r, u)
  {
    hide Run, Inv, Step, KeptOut;
    var r := Run(f, s, schedule);
    Reachable(f, s, schedule);
    var t :| t in r && r[t] != Idle;
    var u, c := FindRunnable(f, r, t);
  }
}

/** What the calls on a blackboard read and write while they hold which locks: that threads do not
    race for the maps of the boards or for the values of entries, and where they do race. */
module BlackboardRaces {

  import opened BlackboardLocks

  /** The map of a board, or the value of an entry; named by the lock that should guard it. */
  datatype Access = Access(what: Lock, write: bool)

  /** What a thread may read or write with the step it is about to take. */
  predicate Touches(pc: Pc, a: Access) {
    match pc
    case GetHave(_, _, b) => a == Access(Storage(b), false)
    case DebugHave(_, b) => a == Access(Storage(b), false)
    case SetHave(b) => a == Access(Storage(b), false)
    case CreateHave(_, b) => a.what == Storage(b)
    case UnsetHave(b) => a.what == Storage(b)
    case InsertHave(dst) => a.what == Storage(dst)
    case EntryHave(e) => a.what == OfEntry(e)
    case CopyHave(_, e) => a == Access(OfEntry(e), false)
    case BothHave(_, first, second) =>
      // cloneInto: looks through both maps, or copies one value over the other
      (a.what == first.lock || a.what == second.lock) && (a.write ==> a.what.OfEntry?)
    case _ => false
  }

  predicate EntryUnique(w: Want) {
    w.lock.OfEntry? ==> w.unique
  }

  /** std::lock takes the locks of entries for writing. */
  predicate PairUnique(pc: Pc) {
    match pc
    case BothWant(_, first, second) => EntryUnique(first) && EntryUnique(second)
    case BothTry(_, first, second) => EntryUnique(first) && EntryUnique(second)
    case BothHave(_, first, second) => EntryUnique(first) && EntryUnique(second)
    case _ => true
  }

  ghost predicate AllUnique(s: State) {
    forall t :: t in s ==> PairUnique(s[t])
  }

  lemma NextUnique(f: Forest, pc: Pc, c: Choice)
    requires Rooted(f) && Next(f, pc, c).Some?
    ensures PairUnique(Next(f, pc, c).value)
  {
  }

  lemma StepUnique(f: Forest, s: State, t: Thread, c: Choice)
    requires Rooted(f) && AllUnique(s) && t in s && Step(f, s, t, c).Some?
    ensures AllUnique(Step(f, s, t, c).value)
  {
    hide Next, Free;
    if Wants(s[t]).None? && !s[t].BothTry? {
      hide Wants, PairUnique;
      NextUnique(f, s[t], c);
    }
  }

  lemma {:induction false} RunUnique(f: Forest, s: State, schedule: seq<Label>)
    requires Rooted(f) && AllUnique(s)
    ensures AllUnique(Run(f, s, schedule))
    decreases |schedule|
  {
    hide AllUnique, Step;
    if schedule != [] {
      var l := schedule[0];
      if l.t in s && Step(f, s, l.t, l.c).Some? {
        StepUnique(f, s, l.t, l.c);
        RunUnique(f, Step(f, s, l.t, l.c).value, schedule[1..]);
      } else {
        RunUnique(f, s, schedule[1..]);
      }
    }
  }

  /** The lock that goes with what is touched is held, for writing if it is written. */
  lemma Guarded(pc: Pc, a: Access) returns (w: Want)
    requires PairUnique(pc) && Touches(pc, a)
    ensures Holds(pc, w) && w.lock == a.what && (a.write ==> w.unique)
  {
    match pc
    case BothHave(_, first, second) => w := if a.what == first.lock then first else second;
    case CreateHave(_, b) => w := Want(a.what, true);
    case UnsetHave(b) => w := Want(a.what, true);
    case InsertHave(dst) => w := Want(a.what, true);
    case EntryHave(e) => w := Want(a.what, true);
    case CopyHave(_, e) => w := Want(a.what, true);
    case _ => w := Want(a.what, false);
  }

  lemma IdleUnique(s: State)
    requires AllIdle(s)
    ensures AllUnique(s)
  {
  }

  /** In every interleaving: while one thread writes the map of a board or the value of an entry, no
      other reads or writes it. */
  lemma NoRaces(f: Forest, s: State, schedule: seq<Label>, t: Thread, u: Thread, a: Access, b: Access)
    requires Rooted(f) && AllIdle(s)
    requires var r := Run(f, s, schedule); t in r && u in r && t != u && Touches(r[t], a) && Touches(r[u], b)
    ensures a.what == b.what ==> !a.write && !b.write
  {
    hide Run, Touches, Holds, PcOk, PairUnique;
    var r := Run(f, s, schedule);
    Reachable(f, s, schedule);
    IdleUnique(s);
    RunUnique(f, s, schedule);
    var v := Guarded(r[t], a);
    var w := Guarded(r[u], b);
  }

  // ---------------------------------------------------------------- what is not guarded

  /** debugMessage and createEntryImpl look at the types of the entries of a board, too. */
  predicate PeeksInto(pc: Pc, b: Board) {
    match pc
    case DebugHave(_, at) => at == b
    case CreateHave(_, at) => at == b
    case _ => false
  }

  const ONE_BOARD := Forest(map[], map[0 := 0], 1)

  /** set has found an entry on the board and holds its lock; debugMessage or createEntry is at the
      same board. They have no lock in common, and the one may be about to change the type of the
      entry that the other looks at. */
  lemma PeekingRaces(call: Choice)
    requires call == Debug(0) || call == Create(0)
    ensures exists schedule ::
      var r := Run(ONE_BOARD, map[0 := Idle, 1 := Idle], schedule);
      && 0 in r && 1 in r && r[0] == EntryHave(7) && PeeksInto(r[1], 0)
      && forall v, w :: Holds(r[0], v) && Holds(r[1], w) ==> v.lock != w.lock
  {
    hide Run, Wants, Next;
    var rest := [Label(1, call)] + [Label(1, call)];
    var t: State := map[0 := EntryHave(7), 1 := Idle];
    var there := if call == Debug(0) then DebugHave(None, 0) else CreateHave([], 0);
    SetRuns(rest);
    Peeks(t, call, if call == Debug(0) then DebugWant(None, 0) else CreateWant([], 0), there);
    var go := Label(0, Found(7));
    var r := Run(ONE_BOARD, map[0 := Idle, 1 := Idle], [Label(0, Set(0))] + ([go] + ([go] + ([go] + rest))));
    assert r == t[1 := there];
  }

  lemma SetRuns(rest: seq<Label>)
    ensures var go := Label(0, Found(7));
      Run(ONE_BOARD, map[0 := Idle, 1 := Idle], [Label(0, Set(0))] + ([go] + ([go] + ([go] + rest))))
        == Run(ONE_BOARD, map[0 := EntryHave(7), 1 := Idle], rest)
  {
    hide Run;
    var go := Label(0, Found(7));
    var s: State := map[0 := Idle, 1 := Idle];
    RunOn(ONE_BOARD, s, Label(0, Set(0)), [go] + ([go] + ([go] + rest)));
    RunOn(ONE_BOARD, s[0 := SetWant(0)], go, [go] + ([go] + rest));
    SetGoesOn(rest);
    assert s[0 := SetWant(0)][0 := SetHave(0)] == map[0 := SetHave(0), 1 := Idle];
  }

  lemma SetGoesOn(rest: seq<Label>)
    ensures var go := Label(0, Found(7));
      Run(ONE_BOARD, map[0 := SetHave(0), 1 := Idle], [go] + ([go] + rest))
        == Run(ONE_BOARD, map[0 := EntryHave(7), 1 := Idle], rest)
  {
    hide Run;
    var go := Label(0, Found(7));
    var s: State := map[0 := SetHave(0), 1 := Idle];
    RunOn(ONE_BOARD, s, go, [go] + rest);
    RunOn(ONE_BOARD, s[0 := EntryWant(7)], go, rest);
    assert s[0 := EntryWant(7)][0 := EntryHave(7)] == map[0 := EntryHave(7), 1 := Idle];
  }

  lemma Peeks(t: State, call: Choice, at: Pc, there: Pc)
    requires t == map[0 := EntryHave(7), 1 := Idle]
    requires (call == Debug(0) && at == DebugWant(None, 0) && there == DebugHave(None, 0))
      || (call == Create(0) && at == CreateWant([], 0) && there == CreateHave([], 0))
    ensures Run(ONE_BOARD, t, [Label(1, call)] + [Label(1, call)]) == t[1 := there]
  {
    var l := Label(1, call);
    RunOn(ONE_BOARD, t, l, [l]);
    assert [l] + [] == [l];
    RunOn(ONE_BOARD, t[1 := at], l, []);
    assert t[1 := at][1 := there] == t[1 := there];
  }

  lemma RunOn(f: Forest, s: State, l: Label, rest: seq<Label>)
    requires Rooted(f) && l.t in s && Step(f, s, l.t, l.c).Some?
    ensures Run(f, s, [l] + rest) == Run(f, Step(f, s, l.t, l.c).value, rest)
    ensures rest == [] ==> Run(f, s, [l] + rest) == Step(f, s, l.t, l.c).value
  {
    assert ([l] + rest)[1..] == rest;
  }

  // ---------------------------------------------------------------- what each call does

  /** Where a thread comes that nobody disturbs. */
  ghost function Alone(f: Forest, pc: Pc, cs: seq<Choice>): Pc
    requires Rooted(f)
    decreases |cs|
  {
    if cs == [] then pc
    else
      var next := Step(f, map[0 := pc], 0, cs[0]);
      if next.Some? then Alone(f, next.value[0], cs[1..]) else pc
  }

  lemma AloneOn(f: Forest, pc: Pc, c: Choice, rest: seq<Choice>, next: Pc)
    requires Rooted(f)
    requires if Wants(pc).Some? then next == Acquired(pc)
             else if pc.BothTry? then next == BothHave(pc.dst, pc.first, pc.second)
             else Next(f, pc, c) == Some(next)
    ensures Alone(f, pc, [c] + rest) == Alone(f, next, rest)
  {
    hide Next, Wants, Acquired;
    assert ([c] + rest)[1..] == rest;
  }

  lemma AloneNowhere(f: Forest, pc: Pc)
    requires Rooted(f)
    ensures Alone(f, pc, []) == pc
  {
  }

  /** get and set come to the entry they have found, and leave it. */
  lemma EntryIsReached(f: Forest, b: Board, e: Entry)
    requires Rooted(f) && b in f.depth
    ensures Alone(f, Idle, [Get(b)] + ([Done] + ([Found(e)] + ([Done] + [])))) == EntryHave(e)
    ensures Alone(f, Idle, [Set(b)] + ([Done] + ([Found(e)] + ([Done] + [])))) == EntryHave(e)
    ensures Alone(f, EntryHave(e), [Done] + []) == Idle
  {
    hide Alone;
    AloneOn(f, Idle, Get(b), [Done] + ([Found(e)] + ([Done] + [])), GetWant(None, None, b));
    AloneOn(f, GetWant(None, None, b), Done, [Found(e)] + ([Done] + []), GetHave(None, None, b));
    AloneOn(f, GetHave(None, None, b), Found(e), [Done] + [], EntryWant(e));
    AloneOn(f, Idle, Set(b), [Done] + ([Found(e)] + ([Done] + [])), SetWant(b));
    AloneOn(f, SetWant(b), Done, [Found(e)] + ([Done] + []), SetHave(b));
    AloneOn(f, SetHave(b), Found(e), [Done] + [], EntryWant(e));
    AloneOn(f, EntryWant(e), Done, [], EntryHave(e));
    AloneOn(f, EntryHave(e), Done, [], Idle);
    AloneNowhere(f, EntryHave(e));
    AloneNowhere(f, Idle);
  }

  /** set of a key that is not there creates the entry, here on the parent, with both maps locked for
      writing, lets go of both and then writes the value. */
  lemma EntryIsCreated(f: Forest, b: Board, e: Entry)
    requires Rooted(f) && b in f.parent
    ensures Alone(f, SetHave(b), [Done] + ([Done] + ([PassOn(f.parent[b])] + ([Done] + []))))
      == CreateHave([b], f.parent[b])
    ensures Alone(f, CreateHave([b], f.parent[b]), [Found(e)] + ([Done] + ([Done] + ([Done] + ([Done] + [])))))
      == EntryHave(e)
  {
    hide Alone;
    var p := f.parent[b];
    AloneOn(f, SetHave(b), Done, [Done] + ([PassOn(p)] + ([Done] + [])), CreateWant([], b));
    AloneOn(f, CreateWant([], b), Done, [PassOn(p)] + ([Done] + []), CreateHave([], b));
    assert [] + [b] == [b];
    AloneOn(f, CreateHave([], b), PassOn(p), [Done] + [], CreateWant([b], p));
    AloneOn(f, CreateWant([b], p), Done, [], CreateHave([b], p));
    AloneNowhere(f, CreateHave([b], p));
    CreationEnds(f, b, e);
  }

  lemma CreationEnds(f: Forest, b: Board, e: Entry)
    requires Rooted(f) && b in f.parent
    ensures Alone(f, CreateHave([b], f.parent[b]), [Found(e)] + ([Done] + ([Done] + ([Done] + ([Done] + [])))))
      == EntryHave(e)
  {
    hide Alone;
    var p := f.parent[b];
    var chain := [b] + [p];
    assert chain[..|chain| - 1] == [b] && [b][..|[b]| - 1] == [];
    AloneOn(f, CreateHave([b], p), Found(e), [Done] + ([Done] + ([Done] + ([Done] + []))), Unwinding(chain, Some(e)));
    AloneOn(f, Unwinding(chain, Some(e)), Done, [Done] + ([Done] + ([Done] + [])), Unwinding([b], Some(e)));
    AloneOn(f, Unwinding([b], Some(e)), Done, [Done] + ([Done] + []), Unwinding([], Some(e)));
    AloneOn(f, Unwinding([], Some(e)), Done, [Done] + [], EntryWant(e));
    AloneOn(f, EntryWant(e), Done, [], EntryHave(e));
    AloneNowhere(f, EntryHave(e));
  }

  /** unset comes to the map of its own board, for writing. */
  lemma MapIsReached(f: Forest, b: Board)
    requires Rooted(f) && b in f.depth
    ensures Alone(f, Idle, [Unset(b)] + ([Done] + [])) == UnsetHave(b)
    ensures Alone(f, UnsetHave(b), [Done] + []) == Idle
  {
    hide Alone;
    AloneOn(f, Idle, Unset(b), [Done] + [], UnsetWant(b));
    AloneOn(f, UnsetWant(b), Done, [], UnsetHave(b));
    AloneOn(f, UnsetHave(b), Done, [], Idle);
    AloneNowhere(f, UnsetHave(b));
    AloneNowhere(f, Idle);
  }

  /** cloneInto looks through both maps together, copies each value with both entries locked or reads
      it with the one locked, and then comes to the map of the destination. */
  lemma CloneCopies(f: Forest, src: Board, dst: Board, e: Entry, to: Entry)
    requires Rooted(f) && src in f.depth && dst in f.depth && src != dst && e != to
    ensures Alone(f, Idle, [Clone(src, dst)] + ([Done] + ([Done] + [])))
      == BothHave(dst, Want(Storage(src), false), Want(Storage(dst), true))
    ensures Alone(f, BothHave(dst, Want(Storage(src), false), Want(Storage(dst), true)), [Done] + []) == Copying(dst)
    ensures Alone(f, Copying(dst), [CopyPair(e, to)] + ([Done] + ([Done] + [])))
      == BothHave(dst, Want(OfEntry(e), true), Want(OfEntry(to), true))
    ensures Alone(f, Copying(dst), [CopyNew(e)] + ([Done] + [])) == CopyHave(dst, e)
    ensures Alone(f, Copying(dst), [Done] + ([Done] + [])) == InsertHave(dst)
  {
    BothAreSeen(f, src, dst);
    PairIsCopied(f, dst, e, to);
    NewIsCopied(f, dst, e);
  }

  lemma BothAreSeen(f: Forest, src: Board, dst: Board)
    requires Rooted(f) && src in f.depth && dst in f.depth && src != dst
    ensures Alone(f, Idle, [Clone(src, dst)] + ([Done] + ([Done] + [])))
      == BothHave(dst, Want(Storage(src), false), Want(Storage(dst), true))
    ensures Alone(f, BothHave(dst, Want(Storage(src), false), Want(Storage(dst), true)), [Done] + []) == Copying(dst)
  {
    hide Alone;
    var first, second := Want(Storage(src), false), Want(Storage(dst), true);
    AloneOn(f, Idle, Clone(src, dst), [Done] + ([Done] + []), BothWant(dst, first, second));
    AloneOn(f, BothWant(dst, first, second), Done, [Done] + [], BothTry(dst, first, second));
    AloneOn(f, BothTry(dst, first, second), Done, [], BothHave(dst, first, second));
    AloneNowhere(f, BothHave(dst, first, second));
    AloneOn(f, BothHave(dst, first, second), Done, [], Copying(dst));
    AloneNowhere(f, Copying(dst));
  }

  lemma NewIsCopied(f: Forest, dst: Board, e: Entry)
    requires Rooted(f)
    ensures Alone(f, Copying(dst), [CopyNew(e)] + ([Done] + [])) == CopyHave(dst, e)
    ensures Alone(f, Copying(dst), [Done] + ([Done] + [])) == InsertHave(dst)
  {
    hide Alone;
    AloneOn(f, Copying(dst), CopyNew(e), [Done] + [], CopyWant(dst, e));
    AloneOn(f, CopyWant(dst, e), Done, [], CopyHave(dst, e));
    AloneNowhere(f, CopyHave(dst, e));
    AloneOn(f, Copying(dst), Done, [Done] + [], InsertWant(dst));
    AloneOn(f, InsertWant(dst), Done, [], InsertHave(dst));
    AloneNowhere(f, InsertHave(dst));
  }

  lemma PairIsCopied(f: Forest, dst: Board, e: Entry, to: Entry)
    requires Rooted(f) && e != to
    ensures Alone(f, Copying(dst), [CopyPair(e, to)] + ([Done] + ([Done] + [])))
      == BothHave(dst, Want(OfEntry(e), true), Want(OfEntry(to), true))
  {
    hide Alone;
    var first, second := Want(OfEntry(e), true), Want(OfEntry(to), true);
    AloneOn(f, Copying(dst), CopyPair(e, to), [Done] + ([Done] + []), BothWant(dst, first, second));
    AloneOn(f, BothWant(dst, first, second), Done, [Done] + [], BothTry(dst, first, second));
    AloneOn(f, BothTry(dst, first, second), Done, [], BothHave(dst, first, second));
    AloneNowhere(f, BothHave(dst, first, second));
  }
}

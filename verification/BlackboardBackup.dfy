/** Backing up and restoring the blackboards of a tree (cloneInto in blackboard.cpp,
    BlackboardBackup and BlackboardRestore in bt_factory.cpp). */
module BlackboardBackups {

  import opened Blackboards

  /** What cloneInto copies from one entry to another. */
  predicate SameContent(c: Content, d: Content) {
    c.value == d.value && c.info == d.info && c.converter == d.converter
  }

  /** An entry that is overwritten counts on; a new one starts at zero. */
  function CopyOf(src: Content, sequenceId: nat): Content {
    src.(sequenceId := sequenceId)
  }

  /** The entries of dst that cloneInto overwrites. */
  function Overwrites(src: map<string, Entry>, dst: map<string, Entry>): set<Entry> {
    set k | k in src && k in dst :: dst[k]
  }

  /** No object is under two keys. */
  predicate OneToOne(m: map<string, Entry>) {
    forall k, k' :: k in m && k' in m && m[k] == m[k'] ==> k == k'
  }

  /** What dst stores under the key of src, c being the content there. */
  predicate Copied(s: State, t: State, storage: map<string, Entry>, k: string, e: Entry, c: Content)
    requires k in storage ==> storage[k] in s.entries
  {
    if k in storage then e == storage[k] && e in t.entries && t.entries[e] == CopyOf(c, s.entries[e].sequenceId + 1)
    else e !in s.entries && e in t.entries && t.entries[e] == CopyOf(c, 0)
  }

  /** What cloneInto does: dst gets the keys of src; the entries it has are overwritten in
      place, the others are new objects, and nothing else changes. */
  ghost predicate Cloned(s: State, t: State, src: Blackboard, dst: Blackboard)
    requires WellFormed(s) && src in s.boards && dst in s.boards
  {
    var from, into := s.boards[src].storage, s.boards[dst].storage;
    && t.boards.Keys == s.boards.Keys
    && (forall b :: b in s.boards && b != dst ==> t.boards[b] == s.boards[b])
    && t.boards[dst] == s.boards[dst].(storage := t.boards[dst].storage)
    && t.boards[dst].storage.Keys == from.Keys
    && (forall k :: k in from ==> Copied(s, t, into, k, t.boards[dst].storage[k], s.entries[from[k]]))
    && OneToOne(t.boards[dst].storage)
    && (forall e :: e in s.entries && e !in Overwrites(from, into) ==> e in t.entries && t.entries[e] == s.entries[e])
    && s.entries.Keys <= t.entries.Keys
  }

  /** Board b in state t holds what board a held in state s. */
  ghost predicate Mirrors(s: State, a: Blackboard, t: State, b: Blackboard)
    requires WellFormed(s) && WellFormed(t) && a in s.boards && b in t.boards
  {
    && t.boards[b].storage.Keys == s.boards[a].storage.Keys
    && forall k :: k in s.boards[a].storage ==>
         SameContent(s.entries[s.boards[a].storage[k]], t.entries[t.boards[b].storage[k]])
  }

  /** A board and the contents of its entries are as they were. */
  ghost predicate Untouched(s: State, t: State, b: Blackboard)
    requires WellFormed(s) && b in s.boards
  {
    && b in t.boards && t.boards[b] == s.boards[b]
    && forall k :: k in s.boards[b].storage ==>
         s.boards[b].storage[k] in t.entries
         && t.entries[s.boards[b].storage[k]] == s.entries[s.boards[b].storage[k]]
  }

  /** What an entry of dst has afterwards: value, declared type and converter of the entry of src; an
      entry that was there counts one up, a new one starts at zero. */
  lemma ClonedContents(s: State, t: State, src: Blackboard, dst: Blackboard, k: string)
    requires WellFormed(s) && src in s.boards && dst in s.boards && Cloned(s, t, src, dst)
    requires k in s.boards[src].storage
    ensures k in t.boards[dst].storage && t.boards[dst].storage[k] in t.entries
    ensures var c, d := s.entries[s.boards[src].storage[k]], t.entries[t.boards[dst].storage[k]];
      && d.value == c.value && d.info == c.info && d.converter == c.converter
      && if k in s.boards[dst].storage
         then t.boards[dst].storage[k] == s.boards[dst].storage[k]
           && d.sequenceId == s.entries[s.boards[dst].storage[k]].sequenceId + 1
         else t.boards[dst].storage[k] !in s.entries && d.sequenceId == 0
  {
    hide OneToOne, Overwrites;
    assert Copied(s, t, s.boards[dst].storage, k, t.boards[dst].storage[k], s.entries[s.boards[src].storage[k]]);
  }

  lemma ClonedWellFormed(s: State, t: State, src: Blackboard, dst: Blackboard)
    requires WellFormed(s) && src in s.boards && dst in s.boards && Cloned(s, t, src, dst)
    ensures WellFormed(t)
  {
    forall b, k | b in t.boards && k in t.boards[b].storage ensures t.boards[b].storage[k] in t.entries {
      if b != dst {
        assert t.boards[b] == s.boards[b];
      } else {
        assert k in s.boards[src].storage;
      }
    }
  }

  lemma ClonedStored(s: State, t: State, src: Blackboard, dst: Blackboard, b: Blackboard, k: string)
    requires WellFormed(s) && src in s.boards && dst in s.boards && Cloned(s, t, src, dst)
    requires b in t.boards && k in t.boards[b].storage
    ensures b in s.boards && (b != dst ==> k in s.boards[b].storage)
    ensures var e := t.boards[b].storage[k];
      if b == dst && k !in s.boards[dst].storage then e !in s.entries
      else k in s.boards[b].storage && e == s.boards[b].storage[k] && e in s.entries
  {
    if b != dst {
      assert t.boards[b] == s.boards[b];
    } else {
      assert k in s.boards[src].storage;
    }
  }

  /** No entry object gets into two slots. */
  lemma ClonedInjective(s: State, t: State, src: Blackboard, dst: Blackboard)
    requires WellFormed(s) && Injective(s) && src in s.boards && dst in s.boards && Cloned(s, t, src, dst)
    ensures Injective(t)
  {
    forall b, k, b', k' |
      b in t.boards && b' in t.boards && k in t.boards[b].storage && k' in t.boards[b'].storage
      && t.boards[b].storage[k] == t.boards[b'].storage[k']
      ensures b == b' && k == k'
    {
      ClonedStored(s, t, src, dst, b, k);
      ClonedStored(s, t, src, dst, b', k');
      if b == dst && b' == dst {
        assert k in s.boards[src].storage && k' in s.boards[src].storage;
      }
    }
  }

  lemma ClonedMirrors(s: State, t: State, src: Blackboard, dst: Blackboard)
    requires WellFormed(s) && src in s.boards && dst in s.boards && Cloned(s, t, src, dst)
    ensures WellFormed(t) && Mirrors(s, src, t, dst)
    ensures forall k :: k in s.boards[dst].storage && k in s.boards[src].storage ==>
      t.boards[dst].storage[k] == s.boards[dst].storage[k]
  {
    ClonedWellFormed(s, t, src, dst);
  }

  /** Every other board is left alone, the source among them. */
  lemma ClonedFrame(s: State, t: State, src: Blackboard, dst: Blackboard, b: Blackboard)
    requires WellFormed(s) && Injective(s) && src in s.boards && dst in s.boards && Cloned(s, t, src, dst)
    requires b in s.boards && b != dst
    ensures Untouched(s, t, b)
  {
    var into := s.boards[dst].storage;
    forall k | k in s.boards[b].storage ensures s.boards[b].storage[k] !in Overwrites(s.boards[src].storage, into) {
    }
  }

  // ---------------------------------------------------------------- what happens in between

  /** A call on one of the boards, and the entry it allocates if it has to. */
  datatype Op =
    | OpCreate(b: Blackboard, k: string, info: TypeInfo, novel: Entry)
    | OpSet(b: Blackboard, k: string, t: TypeId, v: Any, convert: Convert, novel: Entry)
    | OpUnset(b: Blackboard, k: string)

  /** A call that throws changes nothing. */
  ghost function Apply(s: State, op: Op): State
    requires WellFormed(s) && op.b in s.boards
  {
    match op
    case OpCreate(b, k, info, novel) => (
      match Create(s, b, k, info, novel)
      case Ok((u, _)) => u
      case Err(_) => s)
    case OpSet(b, k, t, v, convert, novel) => (
      match Set(s, b, k, t, v, convert, novel)
      case Ok(u) => u
      case Err(_) => s)
    case OpUnset(b, k) => Unset(s, b, k)
  }

  /** The entry is not known yet. */
  predicate Novel(s: State, op: Op) {
    match op
    case OpCreate(_, _, _, novel) => novel !in s.entries
    case OpSet(_, _, _, _, _, novel) => novel !in s.entries
    case OpUnset(_, _) => true
  }

  /** A set of boards that is closed under parents. */
  ghost predicate Closed(live: set<Blackboard>) {
    forall b :: b in live && b.parent != null ==> b.parent in live
  }

  ghost predicate Good(s: State, live: set<Blackboard>) {
    WellFormed(s) && Injective(s) && live <= s.boards.Keys && Closed(live)
  }

  /** Boards outside live are untouched. */
  ghost predicate Spared(s: State, t: State, live: set<Blackboard>)
    requires WellFormed(s)
  {
    && t.boards.Keys == s.boards.Keys && s.entries.Keys <= t.entries.Keys
    && forall b :: b in s.boards && b !in live ==> Untouched(s, t, b)
  }

  lemma {:induction false} RootLive(s: State, live: set<Blackboard>, b: Blackboard)
    requires Good(s, live) && b in live
    ensures b in s.boards && Root(s, b) in live
    decreases b.depth
  {
    if b.parent != null {
      ParentKnown(s, b);
      RootLive(s, live, b.parent);
    }
  }

  lemma {:induction false} CreateSlotLive(s: State, live: set<Blackboard>, b: Blackboard, k: string)
    requires Good(s, live) && b in live
    ensures b in s.boards
    ensures CreateSlot(s, b, k).Some? ==> CreateSlot(s, b, k).value.b in live
    decreases b.depth
  {
    var board := s.boards[b];
    if PassesOn(board, k) && b.parent != null {
      ParentKnown(s, b);
      CreateSlotLive(s, live, b.parent, PassedKey(board, k));
    }
  }

  lemma CreateSpares(s: State, live: set<Blackboard>, b: Blackboard, k: string, info: TypeInfo,
          novel: Entry) returns (at: Slot)
    requires Good(s, live) && b in live && novel !in s.entries
    ensures b in s.boards
    ensures CreateImpl(s, b, k, info, novel).Ok? ==>
      var (u, e) := CreateImpl(s, b, k, info, novel).value;
      && Good(u, live) && Spared(s, u, live)
      && at.b in live && at.b in u.boards && At(u, at) == Some(e)
  {
    hide CreateImpl, CreateSlot;
    CreateSlotLive(s, live, b, k);
    CreatesAtSlot(s, b, k, info, novel);
    at := Slot(b, k);
    if CreateImpl(s, b, k, info, novel).Ok? {
      at := CreateSlot(s, b, k).value;
      if At(s, at).None? {
        AddedKeeps(s, at, info, novel);
        AddedInjective(s, at, info, novel);
        AddedAt(s, at, info, novel, at);
      }
    }
  }

  lemma {:induction false} BaseLive(s: State, live: set<Blackboard>, b: Blackboard, k: string)
    requires Good(s, live) && b in live
    ensures b in s.boards && Base(s, b, k).b in live
    decreases |k|
  {
    RootLive(s, live, b);
    if StartsWithAt(k) {
      BaseLive(s, live, Root(s, b), k[1..]);
    }
  }

  /** Changing what one entry of a live slot holds. */
  lemma AssignSpares(s: State, u: State, live: set<Blackboard>, slot: Slot, c: Content)
    requires Good(s, live) && slot.b in live && slot.b in s.boards && At(s, slot).Some?
    requires u == s.(entries := s.entries[At(s, slot).value := c])
    ensures Good(u, live) && Spared(s, u, live)
  {
    var e := At(s, slot).value;
    assert s.boards[slot.b].storage[slot.k] == e;
    forall b, k | b in s.boards && b !in live && k in s.boards[b].storage ensures s.boards[b].storage[k] != e {
    }
  }

  lemma SparedTrans(s: State, t: State, u: State, live: set<Blackboard>)
    requires WellFormed(s) && WellFormed(t) && Spared(s, t, live) && Spared(t, u, live)
    ensures Spared(s, u, live)
  {
    forall b | b in s.boards && b !in live ensures Untouched(s, u, b) {
      assert Untouched(s, t, b) && Untouched(t, u, b);
    }
  }

  lemma SparedSelf(s: State, live: set<Blackboard>)
    requires WellFormed(s)
    ensures Spared(s, s, live)
  {
  }

  lemma SetSpares(s: State, live: set<Blackboard>, op: Op)
    requires Good(s, live) && op.OpSet? && op.b in live && Novel(s, op)
    ensures op.b in s.boards && Good(Apply(s, op), live) && Spared(s, Apply(s, op), live)
  {
    hide Good, Spared, CreateImpl, Base, Root;
    var OpSet(b, k, t, v, convert, novel) := op;
    GoodParts(s, live);
    BaseLive(s, live, b, k);
    SetAtBase(s, b, k, t, v, convert, novel);
    SparedSelf(s, live);
    var base := Base(s, b, k);
    if base.k in s.boards[base.b].storage {
      var e := s.boards[base.b].storage[base.k];
      match Overwritten(s.entries[e], t, v, convert)
      case None =>
      case Some(c) => AssignSpares(s, s.(entries := s.entries[e := c]), live, base, c);
    } else {
      var slot := CreateSpares(s, live, base.b, base.k, CreationInfo(t, v), novel);
      match CreateImpl(s, base.b, base.k, CreationInfo(t, v), novel)
      case Err(_) =>
      case Ok((u, e)) =>
        var c := u.entries[e].(value := v, sequenceId := u.entries[e].sequenceId + 1);
        GoodParts(u, live);
        AssignSpares(u, u.(entries := u.entries[e := c]), live, slot, c);
        SparedTrans(s, u, u.(entries := u.entries[e := c]), live);
    }
  }

  lemma GoodParts(s: State, live: set<Blackboard>)
    requires Good(s, live)
    ensures WellFormed(s) && live <= s.boards.Keys
  {
  }

  lemma UnsetSpares(s: State, live: set<Blackboard>, b: Blackboard, k: string)
    requires Good(s, live) && b in live
    ensures b in s.boards && Good(Unset(s, b, k), live) && Spared(s, Unset(s, b, k), live)
  {
    var u := Unset(s, b, k);
    assert u.boards.Keys == s.boards.Keys;
    forall b', k' | b' in u.boards && k' in u.boards[b'].storage
      ensures k' in s.boards[b'].storage && u.boards[b'].storage[k'] == s.boards[b'].storage[k']
    {
    }
  }

  lemma ApplySpares(s: State, live: set<Blackboard>, op: Op)
    requires Good(s, live) && op.b in live && Novel(s, op)
    ensures op.b in s.boards && Good(Apply(s, op), live) && Spared(s, Apply(s, op), live)
  {
    hide Good, Spared, CreateImpl, Set, Unset, Root;
    GoodParts(s, live);
    SparedSelf(s, live);
    match op
    case OpCreate(b, k, info, novel) =>
      RootLive(s, live, b);
      var target := Target(s, b, k);
      var slot := CreateSpares(s, live, target.b, target.k, info, novel);
    case OpSet(_, _, _, _, _, _) => SetSpares(s, live, op);
    case OpUnset(b, k) => UnsetSpares(s, live, b, k);
  }

  /** Every call is on a live board, and allocates what was not there. */
  ghost predicate ValidRun(s: State, live: set<Blackboard>, ops: seq<Op>)
    requires Good(s, live)
    decreases |ops|
  {
    ops == [] ||
    (ops[0].b in live && Novel(s, ops[0])
     && (ApplySpares(s, live, ops[0]); ValidRun(Apply(s, ops[0]), live, ops[1..])))
  }

  ghost function Run(s: State, live: set<Blackboard>, ops: seq<Op>): (r: State)
    requires Good(s, live) && ValidRun(s, live, ops)
    ensures r.boards.Keys == s.boards.Keys
    decreases |ops|
  {
    if ops == [] then s else (ApplySpares(s, live, ops[0]); Run(Apply(s, ops[0]), live, ops[1..]))
  }

  lemma {:induction false} RunSpares(s: State, live: set<Blackboard>, ops: seq<Op>)
    requires Good(s, live) && ValidRun(s, live, ops)
    ensures Good(Run(s, live, ops), live) && Spared(s, Run(s, live, ops), live)
    decreases |ops|
  {
    hide Good, Spared, Apply;
    GoodParts(s, live);
    if ops == [] {
      SparedSelf(s, live);
    } else {
      ApplySpares(s, live, ops[0]);
      var t := Apply(s, ops[0]);
      RunSpares(t, live, ops[1..]);
      GoodParts(t, live);
      SparedTrans(s, t, Run(t, live, ops[1..]), live);
    }
  }

  // ---------------------------------------------------------------- backup, run, restore

  /** What BlackboardBackup gives: for each board of the tree a new board without a parent that
      holds the same; all that was there is untouched. */
  ghost predicate BackedUp(s: State, t: State, tree: seq<Blackboard>, backup: seq<Blackboard>)
    requires WellFormed(s) && forall i :: 0 <= i < |tree| ==> tree[i] in s.boards
  {
    && WellFormed(t) && Injective(t) && |backup| == |tree|
    && s.boards.Keys <= t.boards.Keys && s.entries.Keys <= t.entries.Keys
    && (forall b :: b in s.boards ==> Untouched(s, t, b))
    && (forall i :: 0 <= i < |backup| ==> backup[i] in t.boards && backup[i] !in s.boards)
    && (forall i :: 0 <= i < |backup| ==> Mirrors(s, tree[i], t, backup[i]))
  }

  ghost predicate Distinct(boards: seq<Blackboard>) {
    forall i, j :: 0 <= i < j < |boards| ==> boards[i] != boards[j]
  }

  /** The states that BlackboardRestore goes through. */
  ghost predicate Restoring(states: seq<State>, tree: seq<Blackboard>, backup: seq<Blackboard>) {
    && |backup| == |tree| && |states| == |tree| + 1
    && forall i :: 0 <= i < |tree| ==>
         WellFormed(states[i]) && backup[i] in states[i].boards && tree[i] in states[i].boards
         && Cloned(states[i], states[i + 1], backup[i], tree[i])
  }

  /** A key the board has in both states is still at the same entry object. */
  predicate KeepsEntries(s: State, t: State, b: Blackboard)
    requires b in s.boards && b in t.boards
  {
    forall k :: k in s.boards[b].storage && k in t.boards[b].storage ==>
      t.boards[b].storage[k] == s.boards[b].storage[k]
  }

  /** The first n boards are restored, and all others, with the backups, are untouched. */
  ghost predicate RestoredUpTo(s: State, t: State, tree: seq<Blackboard>, backup: seq<Blackboard>, n: nat)
    requires WellFormed(s) && |backup| == |tree| && n <= |tree|
    requires forall i :: 0 <= i < |tree| ==> tree[i] in s.boards && backup[i] in s.boards
  {
    && WellFormed(t) && Injective(t) && t.boards.Keys == s.boards.Keys
    && (forall i :: 0 <= i < n ==> Mirrors(s, backup[i], t, tree[i]) && KeepsEntries(s, t, tree[i]))
    && (forall b :: b in s.boards && b !in tree[..n] ==> Untouched(s, t, b))
  }

  lemma MirrorsUntouched(s: State, a: Blackboard, t: State, b: Blackboard, u: State)
    requires WellFormed(s) && WellFormed(t) && WellFormed(u) && a in s.boards && b in t.boards
    requires Mirrors(s, a, t, b) && Untouched(t, u, b)
    ensures Mirrors(s, a, u, b)
  {
  }

  lemma UntouchedMirrors(s: State, a: Blackboard, t: State, b: Blackboard, u: State)
    requires WellFormed(s) && WellFormed(t) && WellFormed(u) && a in s.boards && b in u.boards
    requires Untouched(s, t, a) && Mirrors(t, a, u, b)
    ensures Mirrors(s, a, u, b)
  {
  }

  lemma UntouchedTrans(s: State, t: State, u: State, b: Blackboard)
    requires WellFormed(s) && WellFormed(t) && b in s.boards && Untouched(s, t, b) && Untouched(t, u, b)
    ensures Untouched(s, u, b)
  {
  }

  /** A board restored before is not changed by restoring another one. */
  lemma StaysRestored(s: State, t: State, u: State, a: Blackboard, b: Blackboard, src: Blackboard, dst: Blackboard)
    requires WellFormed(s) && WellFormed(t) && Injective(t) && a in s.boards && b in s.boards && b in t.boards
    requires b != dst
    requires src in t.boards && dst in t.boards && Cloned(t, u, src, dst)
    requires Mirrors(s, a, t, b) && KeepsEntries(s, t, b) && WellFormed(u)
    ensures b in u.boards && Mirrors(s, a, u, b) && KeepsEntries(s, u, b)
  {
    hide Cloned, Mirrors, Untouched, Injective, WellFormed;
    ClonedInjective(t, u, src, dst);
    ClonedFrame(t, u, src, dst, b);
    UntouchedBoard(t, u, b);
    MirrorsUntouched(s, a, t, b, u);
  }

  lemma RestoreOne(s: State, t: State, u: State, tree: seq<Blackboard>, backup: seq<Blackboard>, n: nat)
    requires WellFormed(s) && |backup| == |tree| && n < |tree| && Distinct(tree)
    requires forall i :: 0 <= i < |tree| ==> tree[i] in s.boards && backup[i] in s.boards
    requires forall i, j :: 0 <= i < |tree| && 0 <= j < |tree| ==> tree[i] != backup[j]
    requires RestoredUpTo(s, t, tree, backup, n) && Cloned(t, u, backup[n], tree[n])
    ensures RestoredUpTo(s, u, tree, backup, n + 1)
  {
    hide Cloned, Mirrors, Untouched, Injective, WellFormed;
    var src, dst := backup[n], tree[n];
    ClonedMirrors(t, u, src, dst);
    ClonedInjective(t, u, src, dst);
    ClonedBoards(t, u, src, dst);
    assert src !in tree[..n] && dst !in tree[..n];
    UntouchedMirrors(s, src, t, dst, u);
    KeepsThrough(s, t, u, src, dst);
    hide KeepsEntries, Distinct;
    forall i | 0 <= i < n ensures Mirrors(s, backup[i], u, tree[i]) && KeepsEntries(s, u, tree[i]) {
      assert tree[i] in tree[..n];
      StaysRestored(s, t, u, backup[i], tree[i], src, dst);
    }
    forall b | b in s.boards && b !in tree[..n + 1] ensures Untouched(s, u, b) {
      assert tree[..n + 1] == tree[..n] + [dst];
      ClonedFrame(t, u, src, dst, b);
      UntouchedTrans(s, t, u, b);
    }
  }

  lemma ClonedBoards(s: State, t: State, src: Blackboard, dst: Blackboard)
    requires WellFormed(s) && src in s.boards && dst in s.boards && Cloned(s, t, src, dst)
    ensures t.boards.Keys == s.boards.Keys
  {
  }

  lemma UntouchedBoard(s: State, t: State, b: Blackboard)
    requires WellFormed(s) && b in s.boards && Untouched(s, t, b)
    ensures b in t.boards && t.boards[b] == s.boards[b]
  {
  }

  lemma KeepsThrough(s: State, t: State, u: State, src: Blackboard, dst: Blackboard)
    requires WellFormed(s) && WellFormed(t) && src in t.boards && dst in t.boards && dst in s.boards
    requires Untouched(s, t, dst) && Cloned(t, u, src, dst)
    ensures KeepsEntries(s, u, dst)
  {
  }

  lemma {:induction false} RestoreAll(states: seq<State>, tree: seq<Blackboard>, backup: seq<Blackboard>, n: nat)
    requires Restoring(states, tree, backup) && n <= |tree| && Distinct(tree) && WellFormed(states[0])
    requires Injective(states[0])
    requires forall i :: 0 <= i < |tree| ==> tree[i] in states[0].boards && backup[i] in states[0].boards
    requires forall i, j :: 0 <= i < |tree| && 0 <= j < |tree| ==> tree[i] != backup[j]
    ensures RestoredUpTo(states[0], states[n], tree, backup, n)
  {
    hide Cloned, WellFormed, Injective, Mirrors, Untouched, RestoredUpTo, Distinct;
    if n == 0 {
      NoneRestored(states[0], tree, backup);
    } else {
      RestoreAll(states, tree, backup, n - 1);
      RestoreOne(states[0], states[n - 1], states[n], tree, backup, n - 1);
    }
  }

  lemma NoneRestored(s: State, tree: seq<Blackboard>, backup: seq<Blackboard>)
    requires WellFormed(s) && Injective(s) && |backup| == |tree|
    requires forall i :: 0 <= i < |tree| ==> tree[i] in s.boards && backup[i] in s.boards
    ensures RestoredUpTo(s, s, tree, backup, 0)
  {
    hide WellFormed, Injective, Mirrors, Untouched;
    forall b | b in s.boards ensures Untouched(s, s, b) {
      UntouchedSelf(s, b);
    }
  }

  lemma UntouchedSelf(s: State, b: Blackboard)
    requires WellFormed(s) && b in s.boards
    ensures Untouched(s, s, b)
  {
  }

  /** Restoring a backup undoes whatever was done to the boards of the tree in between, by any
      number of calls of set, createEntry and unset: every board has exactly the keys it had, with
      the values, declared types and converters they had; the entries still there are the same
      objects, and no entry object is in two slots. */
  lemma RestoreUndoes(s: State, t: State, tree: seq<Blackboard>, backup: seq<Blackboard>, live: set<Blackboard>,
                      ops: seq<Op>, states: seq<State>)
    requires Good(s, live) && Distinct(tree) && forall i :: 0 <= i < |tree| ==> tree[i] in live
    requires BackedUp(s, t, tree, backup)
    requires (BackupStaysGood(s, t, tree, backup, live); ValidRun(t, live, ops))
    requires Restoring(states, tree, backup)
    requires (BackupStaysGood(s, t, tree, backup, live); states[0] == Run(t, live, ops))
    ensures var end := states[|tree|];
      && WellFormed(end) && Injective(end) && end.boards.Keys == t.boards.Keys
      && forall i :: 0 <= i < |tree| ==> Mirrors(s, tree[i], end, tree[i]) && KeepsEntries(states[0], end, tree[i])
  {
    hide Cloned, WellFormed, Injective, Mirrors, Untouched, ValidRun, Run;
    var u, end := states[0], states[|tree|];
    RunSpares(t, live, ops);
    forall i | 0 <= i < |tree| ensures backup[i] !in live {
      assert backup[i] !in s.boards;
    }
    RestoreAll(states, tree, backup, |tree|);
    forall i | 0 <= i < |tree| ensures Mirrors(s, tree[i], end, tree[i]) {
      MirrorsUntouched(s, tree[i], t, backup[i], u);
      MirrorsTrans(s, tree[i], u, backup[i], end, tree[i]);
    }
  }

  lemma MirrorsTrans(s: State, a: Blackboard, t: State, b: Blackboard, u: State, c: Blackboard)
    requires WellFormed(s) && WellFormed(t) && WellFormed(u) && a in s.boards && b in t.boards && c in u.boards
    requires Mirrors(s, a, t, b) && Mirrors(t, b, u, c)
    ensures Mirrors(s, a, u, c)
  {
  }

  /** Such a run is possible: the boards that are live at the backup can be called afterwards. */
  lemma BackupStaysGood(s: State, t: State, tree: seq<Blackboard>, backup: seq<Blackboard>, live: set<Blackboard>)
    requires Good(s, live) && forall i :: 0 <= i < |tree| ==> tree[i] in s.boards
    requires BackedUp(s, t, tree, backup)
    ensures Good(t, live)
  {
  }

  // ---------------------------------------------------------------- in place

  method OverwriteFrom(src: Entry, dst: Entry)
    requires src != dst
    modifies dst
    ensures dst.ToContent() == CopyOf(src.ToContent(), old(dst.sequenceId) + 1)
  {
    dst.converter := src.converter;
    dst.value := src.value;
    dst.info := src.info;
    dst.sequenceId := dst.sequenceId + 1;
  }

  method NewFrom(src: Entry) returns (e: Entry)
    ensures fresh(e) && e.ToContent() == CopyOf(src.ToContent(), 0)
  {
    e := new Entry(src.info);
    e.value := src.value;
    e.converter := src.converter;
  }

  /** An existing entry is overwritten, or a new one is made. */
  method CopyEntry(from: map<string, Entry>, into: map<string, Entry>, k: string, newEntries: map<string, Entry>)
    returns (r: map<string, Entry>)
    requires k in from && (k in into ==> from[k] != into[k])
    modifies if k in into then {into[k]} else {}
    ensures k in into ==>
      r == newEntries && into[k].ToContent() == CopyOf(from[k].ToContent(), old(into[k].sequenceId) + 1)
    ensures k !in into ==>
      k in r && r == newEntries[k := r[k]] && fresh(r[k]) && r[k].ToContent() == CopyOf(from[k].ToContent(), 0)
  {
    r := newEntries;
    if k in into {
      OverwriteFrom(from[k], into[k]);
    } else {
      var e := NewFrom(from[k]);
      r := newEntries[k := e];
    }
  }

  /** The entries are copied in any order. */
  method CopyEntries(from: map<string, Entry>, into: map<string, Entry>) returns (newEntries: map<string, Entry>)
    requires forall k :: k in from ==> from[k] !in Overwrites(from, into)
    requires OneToOne(into)
    modifies Overwrites(from, into)
    ensures newEntries.Keys == from.Keys - into.Keys && OneToOne(newEntries)
    ensures forall k :: k in newEntries ==>
      fresh(newEntries[k]) && newEntries[k].ToContent() == CopyOf(from[k].ToContent(), 0)
    ensures forall k :: k in from && k in into ==>
      into[k].ToContent() == CopyOf(from[k].ToContent(), old(into[k].sequenceId) + 1)
  {
    hide CopyOf, Entry.ToContent, OneToOne, Overwrites;
    newEntries := map[];
    NoneTwice();
    var todo := from.Keys;
    while todo != {}
      invariant todo <= from.Keys
      invariant newEntries.Keys == from.Keys - todo - into.Keys && OneToOne(newEntries)
      invariant forall k :: k in newEntries ==>
        fresh(newEntries[k]) && newEntries[k].ToContent() == CopyOf(from[k].ToContent(), 0)
      invariant forall k :: k in from && k in into && k !in todo ==>
        into[k].ToContent() == CopyOf(from[k].ToContent(), old(into[k].sequenceId) + 1)
      invariant forall k :: k in todo && k in into ==> into[k].sequenceId == old(into[k].sequenceId)
    {
      var k :| k in todo;
      todo := todo - {k};
      ghost var done := newEntries;
      OneApart(from, into, k);
      newEntries := CopyEntry(from, into, k, newEntries);
      if k !in into {
        OneMore(done, k, newEntries[k]);
      }
    }
  }

  lemma NoneTwice()
    ensures OneToOne(map[])
  {
  }

  lemma OneMore(m: map<string, Entry>, k: string, e: Entry)
    requires OneToOne(m) && k !in m && forall j :: j in m ==> m[j] != e
    ensures OneToOne(m[k := e])
  {
  }

  /** The entry overwritten for a key is overwritten for no other, and copied for none. */
  lemma OneApart(from: map<string, Entry>, into: map<string, Entry>, k: string)
    requires OneToOne(into) && k in from && forall j :: j in from ==> from[j] !in Overwrites(from, into)
    ensures k in into ==> into[k] in Overwrites(from, into)
    ensures k in into ==> forall j :: j in from ==> from[j] != into[k]
    ensures k in into ==> forall j :: j in into && j != k ==> into[j] != into[k]
  {
  }

  lemma CloneReady(s: State, src: Blackboard, dst: Blackboard)
    requires WellFormed(s) && Injective(s) && src in s.boards && dst in s.boards && src != dst
    ensures var from, into := s.boards[src].storage, s.boards[dst].storage;
      && OneToOne(into) && Overwrites(from, into) <= s.entries.Keys
      && (forall k :: k in from ==> from[k] !in Overwrites(from, into) && from[k] in s.entries)
  {
  }

  /** The contents after the entries were copied. */
  ghost predicate ContentsCopied(c: map<Entry, Content>, d: map<Entry, Content>, from: map<string, Entry>,
                                 into: map<string, Entry>, newEntries: map<string, Entry>)
    requires forall k :: k in from ==> from[k] in c
    requires forall k :: k in into ==> into[k] in c
  {
    && d.Keys == c.Keys + newEntries.Values
    && (forall k :: k in newEntries && k in from ==> newEntries[k] in d && d[newEntries[k]] == CopyOf(c[from[k]], 0))
    && (forall k :: k in from && k in into ==>
      into[k] in d && d[into[k]] == CopyOf(c[from[k]], c[into[k]].sequenceId + 1))
    && (forall e :: e in c && e !in Overwrites(from, into) ==> e in d && d[e] == c[e])
  }

  lemma BecomesCopied(s: State, t: State, from: map<string, Entry>, into: map<string, Entry>, newEntries: map<string,
          Entry>,
                      k: string)
    requires forall k :: k in from ==> from[k] in s.entries
    requires forall k :: k in into ==> into[k] in s.entries
    requires newEntries.Keys == from.Keys - into.Keys && newEntries.Values !! s.entries.Keys
    requires ContentsCopied(s.entries, t.entries, from, into, newEntries) && k in from
    ensures k in into || k in newEntries
    ensures Copied(s, t, into, k, if k in into then into[k] else newEntries[k], s.entries[from[k]])
  {
    hide CopyOf, Overwrites;
    if k !in into {
      assert newEntries[k] in newEntries.Values;
    }
  }

  lemma BecomesCloned(s: State, t: State, src: Blackboard, dst: Blackboard, newEntries: map<string, Entry>)
    requires WellFormed(s) && src in s.boards && dst in s.boards
    requires var from, into := s.boards[src].storage, s.boards[dst].storage;
      && OneToOne(into) && OneToOne(newEntries) && newEntries.Keys == from.Keys - into.Keys
      && newEntries.Values !! s.entries.Keys && ContentsCopied(s.entries, t.entries, from, into, newEntries)
      && t.boards == s.boards[dst := s.boards[dst].(storage := into + newEntries - (into.Keys - from.Keys))]
    ensures Cloned(s, t, src, dst)
  {
    hide OneToOne, WellFormed, Copied, Overwrites, CopyOf;
    StorageKnown(s, src);
    StorageKnown(s, dst);
    var from, into := s.boards[src].storage, s.boards[dst].storage;
    forall k | k in newEntries ensures newEntries[k] !in s.entries {
      assert newEntries[k] in newEntries.Values;
    }
    OneToOneJoined(s, into, newEntries, from.Keys);
    forall k | k in from ensures Copied(s, t, into, k, t.boards[dst].storage[k], s.entries[from[k]]) {
      BecomesCopied(s, t, from, into, newEntries, k);
    }
  }

  method CopyContents(ghost boards: set<Blackboard>, ghost entries: set<Entry>, from: map<string, Entry>,
          into: map<string, Entry>)
    returns (newEntries: map<string, Entry>)
    requires forall k :: k in from ==> from[k] in entries && from[k] !in Overwrites(from, into)
    requires OneToOne(into) && forall k :: k in into ==> into[k] in entries
    modifies Overwrites(from, into)
    ensures newEntries.Keys == from.Keys - into.Keys && OneToOne(newEntries) && fresh(newEntries.Values)
    ensures ContentsCopied(
      old(Snapshot(boards, entries)).entries, Snapshot(boards, entries + newEntries.Values).entries,
      from, into, newEntries)
    ensures Snapshot(boards, entries + newEntries.Values).boards == old(Snapshot(boards, entries)).boards
  {
    hide OneToOne, CopyOf, BoardsOf, Contents, Overwrites;
    ghost var c := Contents(entries);
    ContentsAt(entries);
    newEntries := CopyEntries(from, into);
    ghost var all := entries + newEntries.Values;
    ghost var d := Contents(all);
    ContentsAt(all);
    forall k | k in from ensures from[k] in c && c[from[k]] == from[k].ToContent() {
    }
    forall k | k in newEntries ensures newEntries[k] in d && d[newEntries[k]] == newEntries[k].ToContent() {
      assert newEntries[k] in newEntries.Values;
    }
    forall k | k in from && k in into
      ensures into[k] in d && d[into[k]] == CopyOf(c[from[k]], c[into[k]].sequenceId + 1)
    {
      assert c[into[k]] == old(into[k].ToContent());
    }
    forall e | e in c && e !in Overwrites(from, into) ensures e in d && d[e] == c[e] {
      assert d[e] == e.ToContent();
    }
  }

  lemma ContentsAt(entries: set<Entry>)
    ensures forall e :: e in entries ==> Contents(entries)[e] == e.ToContent()
  {
  }

  /** cloneInto. The new objects are given back. */
  method CloneInto(ghost boards: set<Blackboard>, ghost entries: set<Entry>, src: Blackboard, dst: Blackboard)
    returns (ghost novel: set<Entry>)
    requires src in boards && dst in boards && src != dst
    requires WellFormed(Snapshot(boards, entries)) && Injective(Snapshot(boards, entries))
    modifies dst`storage, Overwrites(src.storage, dst.storage)
    ensures fresh(novel)
    ensures Cloned(old(Snapshot(boards, entries)), Snapshot(boards, entries + novel), src, dst)
  {
    hide WellFormed, Injective, Cloned, OneToOne, ContentsCopied, Overwrites;
    ghost var s := Snapshot(boards, entries);
    var from, into := src.storage, dst.storage;
    CloneReady(s, src, dst);
    StorageKnown(s, src);
    StorageKnown(s, dst);
    var newEntries := CopyContents(boards, entries, from, into);
    novel := newEntries.Values;
    PutStorage(boards, entries + novel, dst, into + newEntries - (into.Keys - from.Keys));
    BecomesCloned(s, Snapshot(boards, entries + novel), src, dst, newEntries);
  }

  method PutStorage(ghost boards: set<Blackboard>, ghost entries: set<Entry>, b: Blackboard, storage: map<string,
          Entry>)
    requires b in boards
    modifies b`storage
    ensures var s := old(Snapshot(boards, entries));
      Snapshot(boards, entries) == s.(boards := s.boards[b := s.boards[b].(storage := storage)])
  {
    b.storage := storage;
    ghost var s := old(Snapshot(boards, entries));
    assert Snapshot(boards, entries).boards == s.boards[b := s.boards[b].(storage := storage)];
    assert Snapshot(boards, entries).entries == s.entries;
  }

  lemma StorageKnown(s: State, b: Blackboard)
    requires WellFormed(s) && b in s.boards
    ensures forall k :: k in s.boards[b].storage ==> s.boards[b].storage[k] in s.entries
  {
  }

  lemma OneToOneJoined(s: State, into: map<string, Entry>, newEntries: map<string, Entry>, keys: set<string>)
    requires OneToOne(into) && OneToOne(newEntries)
    requires forall k :: k in into ==> into[k] in s.entries
    requires forall k :: k in newEntries ==> newEntries[k] !in s.entries
    ensures OneToOne(into + newEntries - (into.Keys - keys))
  {
  }

  method RestoreBoard(ghost boards: set<Blackboard>, ghost entries: set<Entry>, src: Blackboard, dst: Blackboard)
    returns (ghost novel: set<Entry>)
    requires src in boards && dst in boards && src != dst
    requires WellFormed(Snapshot(boards, entries)) && Injective(Snapshot(boards, entries))
    modifies boards`storage, entries
    ensures fresh(novel)
    ensures Cloned(old(Snapshot(boards, entries)), Snapshot(boards, entries + novel), src, dst)
    ensures WellFormed(Snapshot(boards, entries + novel)) && Injective(Snapshot(boards, entries + novel))
  {
    hide WellFormed, Injective, Cloned, Snapshot, Overwrites;
    ghost var s := Snapshot(boards, entries);
    OverwritesKnown(boards, entries, src, dst);
    novel := CloneInto(boards, entries, src, dst);
    ClonedWellFormed(s, Snapshot(boards, entries + novel), src, dst);
    ClonedInjective(s, Snapshot(boards, entries + novel), src, dst);
  }

  lemma NothingRestored(states: seq<State>)
    requires |states| == 1
    ensures Restoring(states, [], [])
  {
  }

  lemma RestoringMore(states: seq<State>, tree: seq<Blackboard>, backup: seq<Blackboard>, t: State, dst: Blackboard,
          src: Blackboard)
    requires Restoring(states, tree, backup) && |states| > 0
    requires var s := states[|tree|];
      WellFormed(s) && src in s.boards && dst in s.boards && Cloned(s, t, src, dst)
    ensures Restoring(states + [t], tree + [dst], backup + [src])
  {
    hide WellFormed, Cloned;
  }

  /** BlackboardRestore. */
  method BlackboardRestore(ghost boards: set<Blackboard>, ghost entries: set<Entry>, backup: seq<Blackboard>,
          tree: seq<Blackboard>)
    returns (ghost novel: set<Entry>, ghost states: seq<State>)
    requires |backup| == |tree| && forall i :: 0 <= i < |tree| ==> tree[i] in boards && backup[i] in boards
    requires forall i, j :: 0 <= i < |tree| && 0 <= j < |tree| ==> tree[i] != backup[j]
    requires WellFormed(Snapshot(boards, entries)) && Injective(Snapshot(boards, entries))
    modifies boards`storage, entries
    ensures fresh(novel) && Restoring(states, tree, backup)
    ensures states[0] == old(Snapshot(boards, entries)) && states[|tree|] == Snapshot(boards, entries + novel)
  {
    hide WellFormed, Injective, Cloned, Snapshot, Overwrites, Restoring;
    novel := {};
    assert entries + novel == entries;
    NothingRestored([Snapshot(boards, entries)]);
    states := [Snapshot(boards, entries)];
    for i := 0 to |tree|
      invariant fresh(novel) && |states| == i + 1
      invariant states[0] == old(Snapshot(boards, entries)) && states[i] == Snapshot(boards, entries + novel)
      invariant WellFormed(states[i]) && Injective(states[i])
      invariant Restoring(states, tree[..i], backup[..i])
    {
      ghost var more := RestoreBoard(boards, entries + novel, backup[i], tree[i]);
      assert entries + novel + more == entries + (novel + more);
      novel := novel + more;
      RestoringMore(states, tree[..i], backup[..i], Snapshot(boards, entries + novel), tree[i], backup[i]);
      assert tree[..i] + [tree[i]] == tree[..i + 1] && backup[..i] + [backup[i]] == backup[..i + 1];
      states := states + [Snapshot(boards, entries + novel)];
    }
    assert tree[..|tree|] == tree && backup[..|tree|] == backup;
  }

  lemma OverwritesKnown(boards: set<Blackboard>, entries: set<Entry>, src: Blackboard, dst: Blackboard)
    requires WellFormed(Snapshot(boards, entries)) && src in boards && dst in boards
    ensures Overwrites(src.storage, dst.storage) <= entries
  {
    SnapshotAt(boards, entries, dst);
    StorageKnown(Snapshot(boards, entries), dst);
  }

  /** A state with one more, empty board. */
  function WithBoard(s: State, b: Blackboard): State {
    s.(boards := s.boards[b := Board(map[], map[], false)])
  }

  lemma WithBoardKeeps(s: State, t: State, tree: seq<Blackboard>, backup: seq<Blackboard>, b: Blackboard)
    requires WellFormed(s) && forall i :: 0 <= i < |tree| ==> tree[i] in s.boards
    requires BackedUp(s, t, tree, backup) && b !in t.boards && b.parent == null
    ensures BackedUp(s, WithBoard(t, b), tree, backup)
    ensures forall c :: c in t.boards ==> Untouched(t, WithBoard(t, b), c)
  {
    var u := WithBoard(t, b);
    assert WellFormed(u);
    assert Injective(u);
    forall c | c in s.boards ensures Untouched(s, u, c) {
      assert Untouched(s, t, c);
    }
    forall i | 0 <= i < |backup| ensures Mirrors(s, tree[i], u, backup[i]) {
      assert Mirrors(s, tree[i], t, backup[i]);
    }
  }

  lemma BackUpOne(s: State, t: State, u: State, tree: seq<Blackboard>, backup: seq<Blackboard>, a: Blackboard,
          b: Blackboard)
    requires WellFormed(s) && a in s.boards && forall i :: 0 <= i < |tree| ==> tree[i] in s.boards
    requires BackedUp(s, t, tree, backup) && b !in s.boards && b !in backup && b in t.boards && a in t.boards
    requires Cloned(t, u, a, b)
    ensures BackedUp(s, u, tree + [a], backup + [b])
  {
    hide Cloned, Untouched, Mirrors, WellFormed, Injective;
    ClonedWellFormed(t, u, a, b);
    ClonedInjective(t, u, a, b);
    ClonedBoards(t, u, a, b);
    ClonedEntries(t, u, a, b);
    ClonedMirrors(t, u, a, b);
    UntouchedMirrors(s, a, t, b, u);
    forall c | c in s.boards ensures Untouched(s, u, c) {
      ClonedFrame(t, u, a, b, c);
      UntouchedTrans(s, t, u, c);
    }
    forall i | 0 <= i < |backup| ensures Mirrors(s, tree[i], u, backup[i]) {
      ClonedFrame(t, u, a, b, backup[i]);
      MirrorsUntouched(s, tree[i], t, backup[i], u);
    }
  }

  lemma ClonedEntries(s: State, t: State, src: Blackboard, dst: Blackboard)
    requires WellFormed(s) && src in s.boards && dst in s.boards && Cloned(s, t, src, dst)
    ensures s.entries.Keys <= t.entries.Keys
  {
  }

  method NewBoard(ghost boards: set<Blackboard>, ghost entries: set<Entry>) returns (b: Blackboard)
    ensures fresh(b) && b.parent == null && b.storage == map[]
    ensures Snapshot(boards + {b}, entries) == WithBoard(old(Snapshot(boards, entries)), b)
  {
    b := new Blackboard(null);
    ghost var s := old(Snapshot(boards, entries));
    assert Snapshot(boards + {b}, entries).boards == WithBoard(s, b).boards;
    assert Snapshot(boards + {b}, entries).entries == s.entries;
  }

  lemma NothingBackedUp(s: State)
    requires WellFormed(s) && Injective(s)
    ensures BackedUp(s, s, [], [])
  {
  }

  lemma BackedUpParts(s: State, t: State, tree: seq<Blackboard>, backup: seq<Blackboard>)
    requires WellFormed(s) && forall i :: 0 <= i < |tree| ==> tree[i] in s.boards
    requires BackedUp(s, t, tree, backup)
    ensures WellFormed(t) && Injective(t) && s.boards.Keys <= t.boards.Keys
  {
  }

  lemma OverwritesNothing(from: map<string, Entry>)
    ensures Overwrites(from, map[]) == {}
  {
  }

  /** One more board a is backed up, after those of tree. */
  method BackUpBoard(ghost s: State, ghost boards: set<Blackboard>, ghost entries: set<Entry>,
          ghost tree: seq<Blackboard>,
                     ghost backup: seq<Blackboard>, a: Blackboard) returns (bb: Blackboard, ghost novel: set<Entry>)
    requires WellFormed(s) && a in s.boards && forall i :: 0 <= i < |tree| ==> tree[i] in s.boards
    requires BackedUp(s, Snapshot(boards, entries), tree, backup) && forall b :: b in backup ==> b in boards
    ensures fresh(bb) && fresh(novel) && bb.parent == null
    ensures BackedUp(s, Snapshot(boards + {bb}, entries + novel), tree + [a], backup + [bb])
  {
    hide WellFormed, Injective, Cloned, Snapshot, Overwrites, BackedUp;
    ghost var t := Snapshot(boards, entries);
    BackedUpParts(s, t, tree, backup);
    bb := NewBoard(boards, entries);
    WithBoardKeeps(s, t, tree, backup, bb);
    BackedUpParts(s, WithBoard(t, bb), tree, backup);
    OverwritesNothing(a.storage);
    novel := CloneInto(boards + {bb}, entries, a, bb);
    BackUpOne(s, WithBoard(t, bb), Snapshot(boards + {bb}, entries + novel), tree, backup, a, bb);
  }

  /** BlackboardBackup. */
  method BlackboardBackup(ghost boards: set<Blackboard>, ghost entries: set<Entry>, tree: seq<Blackboard>)
    returns (backup: seq<Blackboard>, ghost novel: set<Entry>)
    requires WellFormed(Snapshot(boards, entries)) && Injective(Snapshot(boards, entries))
    requires forall i :: 0 <= i < |tree| ==> tree[i] in boards
    ensures fresh(novel) && forall b :: b in backup ==> fresh(b) && b.parent == null
    ensures BackedUp(
      old(Snapshot(boards, entries)), Snapshot(boards + (set b | b in backup), entries + novel), tree, backup)
  {
    hide WellFormed, Injective, Cloned, Snapshot, Overwrites, BackedUp;
    ghost var s := Snapshot(boards, entries);
    backup, novel := [], {};
    ghost var all, known := boards, entries;
    NothingBackedUp(s);
    for i := 0 to |tree|
      invariant fresh(novel) && forall b :: b in backup ==> fresh(b) && b.parent == null
      invariant all == boards + (set b | b in backup) && known == entries + novel
      invariant BackedUp(s, Snapshot(all, known), tree[..i], backup)
    {
      ghost var more;
      var bb;
      bb, more := BackUpBoard(s, all, known, tree[..i], backup, tree[i]);
      all, known, novel := all + {bb}, known + more, novel + more;
      assert tree[..i] + [tree[i]] == tree[..i + 1];
      backup := backup + [bb];
    }
    assert tree[..|tree|] == tree;
  }
}

/** The blackboard (blackboard.h, blackboard.cpp): scoped stores in a forest, with keys that are
    remapped to keys of the parent, keys that are passed on under the same name, private keys,
    and keys of the root. The functions are on a snapshot of the boards and entries; the methods
    of the classes work in place and are proved to do what the functions say. */
module Blackboards {

  datatype Option<+T> = None | Some(value: T)

  datatype Error = AtTwice | TypeMismatch | MissingParent

  datatype Result<+T> = Ok(value: T) | Err(error: Error)

  /** std::type_index, as far as the code tells types apart. */
  datatype TypeId = AnyTypeAllowed | BtAny | String | Other(n: nat)

  /** A stored value: what it is of, and (unless it is empty) its content. */
  datatype Any = Empty(of: TypeId) | Holds(of: TypeId, content: nat)

  /** A declared type, and the type its converter from strings produces. */
  datatype TypeInfo = TypeInfo(id: TypeId, converter: Option<TypeId>)

  predicate StronglyTyped(info: TypeInfo) {
    info.id != AnyTypeAllowed && info.id != BtAny
  }

  datatype Content = Content(value: Any, info: TypeInfo, converter: Option<TypeId>, sequenceId: nat)

  /** What assigning the value v of type t to an entry that holds another value stores, if the
      types can be reconciled: the conversions of safe_any.hpp. */
  type Convert = (TypeInfo, Any, TypeId, Any) -> Option<Any>

  class Entry {
    var value: Any
    var info: TypeInfo
    var converter: Option<TypeId>
    var sequenceId: nat

    constructor (info: TypeInfo)
      ensures this.info == info && value == Empty(info.id) && converter == None && sequenceId == 0
    {
      this.info := info;
      value := Empty(info.id);
      converter := None;
      sequenceId := 0;
    }

    function ToContent(): Content
      reads this
    {
      Content(value, info, converter, sequenceId)
    }
  }

  datatype Board = Board(storage: map<string, Entry>, remapping: map<string, string>, autoRemapping: bool)

  datatype State = State(boards: map<Blackboard, Board>, entries: map<Entry, Content>)

  datatype Slot = Slot(b: Blackboard, k: string)

  predicate StartsWithAt(k: string) {
    |k| >= 1 && k[0] == '@'
  }

  predicate IsPrivateKey(k: string) {
    |k| >= 1 && k[0] == '_'
  }

  /** The boards are closed under parents, which lie less deep, and they store known entries. */
  ghost predicate WellFormed(s: State) {
    && (forall b :: b in s.boards && b.parent != null ==> b.parent in s.boards && b.parent.depth < b.depth)
    && (forall b, k :: b in s.boards && k in s.boards[b].storage ==> s.boards[b].storage[k] in s.entries)
  }

  // ---------------------------------------------------------------- lookup

  function Root(s: State, b: Blackboard): (r: Blackboard)
    requires WellFormed(s) && b in s.boards
    ensures r in s.boards && r.parent == null && r.depth <= b.depth
    decreases b.depth
  {
    if b.parent == null then b else Root(s, b.parent)
  }

  function Find(s: State, b: Blackboard, k: string): (r: Option<Entry>)
    requires WellFormed(s) && b in s.boards
    ensures r.Some? ==> r.value in s.entries
    decreases b.depth, |k|
  {
    var board := s.boards[b];
    if StartsWithAt(k) then Find(s, Root(s, b), k[1..])
    else if k in board.storage then Some(board.storage[k])
    else if b.parent == null then None
    else if k in board.remapping then Find(s, b.parent, board.remapping[k])
    else if board.autoRemapping && !IsPrivateKey(k) then Find(s, b.parent, k)
    else None
  }

  /** Where a lookup ends, whether it finds an entry there or not. */
  function LookupSlot(s: State, b: Blackboard, k: string): (r: Slot)
    requires WellFormed(s) && b in s.boards
    ensures r.b in s.boards
    decreases b.depth, |k|
  {
    var board := s.boards[b];
    if StartsWithAt(k) then LookupSlot(s, Root(s, b), k[1..])
    else if k in board.storage || b.parent == null then Slot(b, k)
    else if k in board.remapping then LookupSlot(s, b.parent, board.remapping[k])
    else if board.autoRemapping && !IsPrivateKey(k) then LookupSlot(s, b.parent, k)
    else Slot(b, k)
  }

  /** What a slot holds. */
  function At(s: State, slot: Slot): Option<Entry>
    requires slot.b in s.boards
  {
    if slot.k in s.boards[slot.b].storage then Some(s.boards[slot.b].storage[slot.k]) else None
  }

  lemma {:induction false} FindsAtSlot(s: State, b: Blackboard, k: string)
    requires WellFormed(s) && b in s.boards
    ensures Find(s, b, k) == At(s, LookupSlot(s, b, k))
    decreases b.depth, |k|
  {
    hide WellFormed;
    var board := s.boards[b];
    if StartsWithAt(k) {
      FindsAtSlot(s, Root(s, b), k[1..]);
    } else if k in board.storage {
    } else if b.parent == null {
    } else {
      ParentKnown(s, b);
      if k in board.remapping {
        FindsAtSlot(s, b.parent, board.remapping[k]);
      } else if board.autoRemapping && !IsPrivateKey(k) {
        FindsAtSlot(s, b.parent, k);
      }
    }
  }

  lemma ParentKnown(s: State, b: Blackboard)
    requires WellFormed(s) && b in s.boards && b.parent != null
    ensures b.parent in s.boards && b.parent.depth < b.depth
  {
  }

  // ---------------------------------------------------------------- creation

  /** createEntryImpl hands on to the parent, or fails for want of one. */
  predicate PassesOn(board: Board, k: string) {
    k !in board.storage && (k in board.remapping || (board.autoRemapping && !IsPrivateKey(k)))
  }

  function PassedKey(board: Board, k: string): string {
    if k in board.remapping then board.remapping[k] else k
  }

  /** An entry already there may be declared again: unless both types are strong and differ. */
  predicate Compatible(declared: TypeInfo, info: TypeInfo) {
    declared.id == info.id || !StronglyTyped(declared) || !StronglyTyped(info)
  }

  ghost function Added(s: State, b: Blackboard, k: string, info: TypeInfo, novel: Entry): (t: State)
    requires b in s.boards
    ensures t.boards.Keys == s.boards.Keys
  {
    State(s.boards[b := s.boards[b].(storage := s.boards[b].storage[k := novel])],
          s.entries[novel := Content(Empty(info.id), info, None, 0)])
  }

  /** createEntryImpl: the entry, and the state with it; novel is the entry it allocates if it
      has to. */
  ghost function CreateImpl(s: State, b: Blackboard, k: string, info: TypeInfo, novel: Entry): (r: Result<(State,
          Entry)>)
    requires WellFormed(s) && b in s.boards
    ensures r.Ok? ==> r.value.0.boards.Keys == s.boards.Keys && r.value.1 in r.value.0.entries
    decreases b.depth
  {
    var board := s.boards[b];
    if k in board.storage then
      if Compatible(s.entries[board.storage[k]].info, info) then Ok((s, board.storage[k])) else Err(TypeMismatch)
    else if k in board.remapping then
      if b.parent == null then Err(MissingParent) else CreateImpl(s, b.parent, board.remapping[k], info, novel)
    else if board.autoRemapping && !IsPrivateKey(k) then
      if b.parent == null then Err(MissingParent) else CreateImpl(s, b.parent, k, info, novel)
    else Ok((Added(s, b, k, info, novel), novel))
  }

  /** createEntry, for a key that may name an entry of the root. */
  ghost function Create(s: State, b: Blackboard, k: string, info: TypeInfo, novel: Entry): (r: Result<(State, Entry)>)
    requires WellFormed(s) && b in s.boards
    ensures r.Ok? ==> r.value.0.boards.Keys == s.boards.Keys
  {
    if StartsWithAt(k) then
      if '@' in k[1..] then Err(AtTwice) else CreateImpl(s, Root(s, b), k[1..], info, novel)
    else CreateImpl(s, b, k, info, novel)
  }

  /** Where createEntryImpl ends, unless it fails for want of a parent. */
  function CreateSlot(s: State, b: Blackboard, k: string): (r: Option<Slot>)
    requires WellFormed(s) && b in s.boards
    ensures r.Some? ==> r.value.b in s.boards && !PassesOn(s.boards[r.value.b], r.value.k)
    decreases b.depth
  {
    var board := s.boards[b];
    if !PassesOn(board, k) then Some(Slot(b, k))
    else if b.parent == null then None
    else CreateSlot(s, b.parent, PassedKey(board, k))
  }

  /** What createEntryImpl does at the slot where it ends. */
  ghost function CreatedAt(s: State, slot: Slot, info: TypeInfo, novel: Entry): (r: Result<(State, Entry)>)
    requires WellFormed(s) && slot.b in s.boards
  {
    match At(s, slot)
    case Some(e) => if Compatible(s.entries[e].info, info) then Ok((s, e)) else Err(TypeMismatch)
    case None => Ok((Added(s, slot.b, slot.k, info, novel), novel))
  }

  lemma {:induction false} CreatesAtSlot(s: State, b: Blackboard, k: string, info: TypeInfo, novel: Entry)
    requires WellFormed(s) && b in s.boards
    ensures CreateImpl(s, b, k, info, novel) ==
      if CreateSlot(s, b, k).None? then Err(MissingParent) else CreatedAt(s, CreateSlot(s, b, k).value, info, novel)
    decreases b.depth
  {
    var board := s.boards[b];
    if PassesOn(board, k) && b.parent != null {
      CreatesAtSlot(s, b.parent, PassedKey(board, k), info, novel);
    }
  }

  // ---------------------------------------------------------------- creation and lookup agree

  /** On the way from the board to where createEntryImpl ends, some board hands its parent a key
      that begins with '@'. */
  predicate HandsOnAt(s: State, b: Blackboard, k: string)
    requires WellFormed(s) && b in s.boards
    decreases b.depth
  {
    var board := s.boards[b];
    && PassesOn(board, k) && b.parent != null
    && (StartsWithAt(PassedKey(board, k)) || HandsOnAt(s, b.parent, PassedKey(board, k)))
  }

  /** On that way, some board remaps a key that begins with '@'. */
  predicate RemapsAtKey(s: State, b: Blackboard, k: string)
    requires WellFormed(s) && b in s.boards
    decreases b.depth
  {
    var board := s.boards[b];
    && PassesOn(board, k) && b.parent != null
    && ((StartsWithAt(k) && k in board.remapping) || RemapsAtKey(s, b.parent, PassedKey(board, k)))
  }

  /** If no such key is handed on, creation and lookup take the same way. */
  lemma {:induction false} SameSlot(s: State, b: Blackboard, k: string)
    requires WellFormed(s) && b in s.boards && !StartsWithAt(k) && CreateSlot(s, b, k).Some?
    requires !HandsOnAt(s, b, k)
    ensures CreateSlot(s, b, k) == Some(LookupSlot(s, b, k))
    decreases b.depth
  {
    var board := s.boards[b];
    if PassesOn(board, k) {
      ParentKnown(s, b);
      SameSlot(s, b.parent, PassedKey(board, k));
    }
  }

  /** Creation takes a key that begins with '@' as it is, all the way. */
  lemma {:induction false} AtKeyStays(s: State, b: Blackboard, k: string)
    requires WellFormed(s) && b in s.boards && StartsWithAt(k) && CreateSlot(s, b, k).Some?
    requires !RemapsAtKey(s, b, k)
    ensures CreateSlot(s, b, k).value.k == k
    decreases b.depth
  {
    if PassesOn(s.boards[b], k) {
      ParentKnown(s, b);
      AtKeyStays(s, b.parent, k);
    }
  }

  /** If one is handed on, creation ends at a key that begins with '@'. */
  lemma {:induction false} EndsAtAtKey(s: State, b: Blackboard, k: string)
    requires WellFormed(s) && b in s.boards && CreateSlot(s, b, k).Some?
    requires HandsOnAt(s, b, k) && !RemapsAtKey(s, b, k)
    ensures StartsWithAt(CreateSlot(s, b, k).value.k)
    decreases b.depth
  {
    var key := PassedKey(s.boards[b], k);
    ParentKnown(s, b);
    if StartsWithAt(key) {
      AtKeyStays(s, b.parent, key);
    } else {
      EndsAtAtKey(s, b.parent, key);
    }
  }

  /** But no lookup ever ends at such a key. */
  lemma {:induction false} NoLookupAtKey(s: State, b: Blackboard, k: string)
    requires WellFormed(s) && b in s.boards
    ensures !StartsWithAt(LookupSlot(s, b, k).k)
    decreases b.depth, |k|
  {
    hide WellFormed;
    var board := s.boards[b];
    if StartsWithAt(k) {
      NoLookupAtKey(s, Root(s, b), k[1..]);
    } else if k !in board.storage && b.parent != null {
      ParentKnown(s, b);
      if k in board.remapping {
        NoLookupAtKey(s, b.parent, board.remapping[k]);
      } else if board.autoRemapping && !IsPrivateKey(k) {
        NoLookupAtKey(s, b.parent, k);
      }
    }
  }

  /** A lookup is not led astray by a new entry at a slot that createEntryImpl does not pass on:
      it ends at the same slot, unless it ends at the new one. */
  lemma {:induction false} AddedLookup(s: State, at: Slot, info: TypeInfo, novel: Entry, b: Blackboard, k: string)
    requires WellFormed(s) && b in s.boards && at.b in s.boards
    requires !PassesOn(s.boards[at.b], at.k) && novel !in s.entries
    ensures var t := Added(s, at.b, at.k, info, novel);
      WellFormed(t) && LookupSlot(t, b, k) == LookupSlot(s, b, k)
    decreases b.depth, |k|
  {
    var t := Added(s, at.b, at.k, info, novel);
    AddedKeeps(s, at, info, novel);
    hide WellFormed;
    if StartsWithAt(k) {
      AddedRoot(s, at, info, novel, b);
      AddedLookup(s, at, info, novel, Root(s, b), k[1..]);
    } else if k in s.boards[b].storage || b.parent == null {
    } else {
      ParentKnown(s, b);
      if k in s.boards[b].remapping {
        AddedLookup(s, at, info, novel, b.parent, s.boards[b].remapping[k]);
      } else if s.boards[b].autoRemapping && !IsPrivateKey(k) {
        AddedLookup(s, at, info, novel, b.parent, k);
      }
    }
  }

  lemma AddedKeeps(s: State, at: Slot, info: TypeInfo, novel: Entry)
    requires WellFormed(s) && at.b in s.boards
    ensures WellFormed(Added(s, at.b, at.k, info, novel))
  {
  }

  lemma {:induction false} AddedRoot(s: State, at: Slot, info: TypeInfo, novel: Entry, b: Blackboard)
    requires WellFormed(s) && b in s.boards && at.b in s.boards
    ensures WellFormed(Added(s, at.b, at.k, info, novel))
    ensures Root(Added(s, at.b, at.k, info, novel), b) == Root(s, b)
    decreases b.depth
  {
    AddedKeeps(s, at, info, novel);
    if b.parent != null {
      AddedRoot(s, at, info, novel, b.parent);
    }
  }

  /** No lookup that succeeded resolves to anything else after an entry was created, whatever the
      remappings are. */
  lemma LookupsStay(s: State, b: Blackboard, k: string, info: TypeInfo, novel: Entry, b': Blackboard, k': string)
    requires WellFormed(s) && b in s.boards && b' in s.boards && novel !in s.entries
    requires Create(s, b, k, info, novel).Ok? && Find(s, b', k').Some?
    ensures var t := Create(s, b, k, info, novel).value.0;
      WellFormed(t) && Find(t, b', k') == Find(s, b', k')
  {
    hide WellFormed, CreateImpl, Find, LookupSlot, CreateSlot, Root, Added;
    var target, key := (if StartsWithAt(k) then Root(s, b) else b), (if StartsWithAt(k) then k[1..] else k);
    CreatesAtSlot(s, target, key, info, novel);
    var at := CreateSlot(s, target, key).value;
    FindsAtSlot(s, b', k');
    if At(s, at).None? {
      AddedLookup(s, at, info, novel, b', k');
      var t := Added(s, at.b, at.k, info, novel);
      FindsAtSlot(t, b', k');
      AddedAt(s, at, info, novel, LookupSlot(s, b', k'));
    }
  }

  lemma AddedAt(s: State, at: Slot, info: TypeInfo, novel: Entry, slot: Slot)
    requires at.b in s.boards && slot.b in s.boards
    ensures slot.b in Added(s, at.b, at.k, info, novel).boards
    ensures At(Added(s, at.b, at.k, info, novel), slot) == if slot == at then Some(novel) else At(s, slot)
  {
  }

  /** The board and key that createEntry hands to createEntryImpl. */
  function Target(s: State, b: Blackboard, k: string): (r: Slot)
    requires WellFormed(s) && b in s.boards
    ensures r.b in s.boards
  {
    if StartsWithAt(k) then Slot(Root(s, b), k[1..]) else Slot(b, k)
  }

  /** No entry object is in two slots. */
  ghost predicate Injective(s: State) {
    forall b, k, b', k' ::
      (b in s.boards && b' in s.boards && k in s.boards[b].storage && k' in s.boards[b'].storage
       && s.boards[b].storage[k] == s.boards[b'].storage[k']) ==> b == b' && k == k'
  }

  lemma AddedInjective(s: State, at: Slot, info: TypeInfo, novel: Entry)
    requires WellFormed(s) && Injective(s) && at.b in s.boards && novel !in s.entries
    ensures Injective(Added(s, at.b, at.k, info, novel))
  {
  }

  lemma SlotsDistinct(s: State, a: Slot, b: Slot)
    requires Injective(s) && a.b in s.boards && b.b in s.boards && At(s, a).Some? && At(s, a) == At(s, b)
    ensures a == b
  {
  }

  /** After an entry was created, looking it up on the same board gives that very entry, if and
      only if the two ways of resolving the key, before the call, end at the same slot. */
  lemma AgreeAtSlots(s: State, b: Blackboard, k: string, info: TypeInfo, novel: Entry)
    requires WellFormed(s) && Injective(s) && b in s.boards && novel !in s.entries
    requires Create(s, b, k, info, novel).Ok?
    ensures var (t, e) := Create(s, b, k, info, novel).value;
      var target := Target(s, b, k);
      && WellFormed(t) && Injective(t)
      && (Find(t, b, k) == Some(e) <==> CreateSlot(s, target.b, target.k) == Some(LookupSlot(s, b, k)))
  {
    hide WellFormed, Injective, CreateImpl, Find, LookupSlot, CreateSlot, Root, Added;
    var target := Target(s, b, k);
    CreatesAtSlot(s, target.b, target.k, info, novel);
    var at, slot := CreateSlot(s, target.b, target.k).value, LookupSlot(s, b, k);
    var (t, e) := Create(s, b, k, info, novel).value;
    if At(s, at).None? {
      AddedLookup(s, at, info, novel, b, k);
      AddedInjective(s, at, info, novel);
      AddedAt(s, at, info, novel, slot);
      AddedAt(s, at, info, novel, at);
    }
    FindsAtSlot(t, b, k);
    if Find(t, b, k) == Some(e) {
      SlotsDistinct(t, slot, at);
    }
  }

  lemma WayOfTarget(s: State, b: Blackboard, k: string)
    requires WellFormed(s) && b in s.boards && (StartsWithAt(k) ==> '@' !in k[1..])
    ensures var target := Target(s, b, k);
      && !StartsWithAt(target.k) && LookupSlot(s, b, k) == LookupSlot(s, target.b, target.k)
  {
  }

  /** After createEntry, looking the key up on the same board gives that very entry if and only if
      no board on the way of the key hands on one that begins with '@'. */
  lemma AgreeExactly(s: State, b: Blackboard, k: string, info: TypeInfo, novel: Entry)
    requires WellFormed(s) && Injective(s) && b in s.boards && novel !in s.entries
    requires !RemapsAtKey(s, Target(s, b, k).b, Target(s, b, k).k)
    requires Create(s, b, k, info, novel).Ok?
    ensures var (t, e) := Create(s, b, k, info, novel).value;
      var target := Target(s, b, k);
      WellFormed(t) && (Find(t, b, k) == Some(e) <==> !HandsOnAt(s, target.b, target.k))
  {
    hide WellFormed, Injective, CreateImpl, Find, LookupSlot, CreateSlot, Root, HandsOnAt, RemapsAtKey, Target;
    AgreeAtSlots(s, b, k, info, novel);
    var target := Target(s, b, k);
    CreatedSomewhere(s, b, k, info, novel);
    WayOfTarget(s, b, k);
    if HandsOnAt(s, target.b, target.k) {
      EndsAtAtKey(s, target.b, target.k);
      NoLookupAtKey(s, b, k);
    } else {
      SameSlot(s, target.b, target.k);
    }
  }

  lemma CreatedSomewhere(s: State, b: Blackboard, k: string, info: TypeInfo, novel: Entry)
    requires WellFormed(s) && b in s.boards && Create(s, b, k, info, novel).Ok?
    ensures var target := Target(s, b, k);
      && (StartsWithAt(k) ==> '@' !in k[1..]) && CreateSlot(s, target.b, target.k).Some?
      && Create(s, b, k, info, novel) == CreatedAt(s, CreateSlot(s, target.b, target.k).value, info, novel)
  {
    hide WellFormed, CreateImpl, CreateSlot, Root, CreatedAt;
    var target := Target(s, b, k);
    CreatesAtSlot(s, target.b, target.k, info, novel);
  }

  /** Whatever is remapped elsewhere, if no such key is handed on, what was created is found. */
  lemma CreateThenFind(s: State, b: Blackboard, k: string, info: TypeInfo, novel: Entry)
    requires WellFormed(s) && Injective(s) && b in s.boards && novel !in s.entries
    requires !HandsOnAt(s, Target(s, b, k).b, Target(s, b, k).k)
    requires Create(s, b, k, info, novel).Ok?
    ensures var (t, e) := Create(s, b, k, info, novel).value;
      WellFormed(t) && Find(t, b, k) == Some(e)
  {
    hide WellFormed, Injective, CreateImpl, Find, LookupSlot, CreateSlot, Root, HandsOnAt, Target;
    AgreeAtSlots(s, b, k, info, novel);
    CreatedSomewhere(s, b, k, info, novel);
    WayOfTarget(s, b, k);
    SameSlot(s, Target(s, b, k).b, Target(s, b, k).k);
  }

  /** A key of the root is handed on by no board, so what is created under it is always found,
      whatever the remappings are. */
  lemma RootKeyFound(s: State, b: Blackboard, k: string, info: TypeInfo, novel: Entry)
    requires WellFormed(s) && Injective(s) && b in s.boards && novel !in s.entries && StartsWithAt(k)
    requires Create(s, b, k, info, novel).Ok?
    ensures var (t, e) := Create(s, b, k, info, novel).value;
      WellFormed(t) && Find(t, b, k) == Some(e)
  {
    hide WellFormed, Injective, Create, Find, Root;
    RootHandsNothingOn(s, b, k);
    CreateThenFind(s, b, k, info, novel);
  }

  lemma RootHandsNothingOn(s: State, b: Blackboard, k: string)
    requires WellFormed(s) && b in s.boards && StartsWithAt(k)
    ensures !HandsOnAt(s, Target(s, b, k).b, Target(s, b, k).k)
  {
  }

  /** Nor is one handed on if no remapping target begins with '@'. */
  lemma {:induction false} PlainTargets(s: State, b: Blackboard, k: string)
    requires WellFormed(s) && b in s.boards && !StartsWithAt(k)
    requires forall b, k :: b in s.boards && k in s.boards[b].remapping ==> !StartsWithAt(s.boards[b].remapping[k])
    ensures !HandsOnAt(s, b, k)
    decreases b.depth
  {
    if PassesOn(s.boards[b], k) && b.parent != null {
      ParentKnown(s, b);
      PlainTargets(s, b.parent, PassedKey(s.boards[b], k));
    }
  }

  /** The family in which they part: a key that begins with '@' was handed on, so the entry lies
      under such a key, and no lookup of any key on any board finds it. */
  lemma AtTargetLost(s: State, b: Blackboard, k: string, info: TypeInfo, novel: Entry)
    requires WellFormed(s) && Injective(s) && b in s.boards && novel !in s.entries
    requires HandsOnAt(s, Target(s, b, k).b, Target(s, b, k).k)
    requires !RemapsAtKey(s, Target(s, b, k).b, Target(s, b, k).k)
    requires Create(s, b, k, info, novel).Ok?
    ensures var (t, e) := Create(s, b, k, info, novel).value;
      WellFormed(t) && forall b', k' :: b' in t.boards ==> Find(t, b', k') != Some(e)
  {
    hide WellFormed, Injective, Create, CreateImpl, Find, LookupSlot, CreateSlot, Root, HandsOnAt, RemapsAtKey, Target;
    hide At, CreatedAt;
    AgreeAtSlots(s, b, k, info, novel);
    var target := Target(s, b, k);
    CreatedSomewhere(s, b, k, info, novel);
    EndsAtAtKey(s, target.b, target.k);
    var at := CreateSlot(s, target.b, target.k).value;
    CreatedLies(s, at, info, novel);
    var (t, e) := Create(s, b, k, info, novel).value;
    forall b', k' | b' in t.boards ensures Find(t, b', k') != Some(e) {
      FindsAtSlot(t, b', k');
      NoLookupAtKey(t, b', k');
      if Find(t, b', k') == Some(e) {
        SlotsDistinct(t, LookupSlot(t, b', k'), at);
      }
    }
  }

  lemma CreatedLies(s: State, at: Slot, info: TypeInfo, novel: Entry)
    requires WellFormed(s) && at.b in s.boards && CreatedAt(s, at, info, novel).Ok?
    ensures var (t, e) := CreatedAt(s, at, info, novel).value;
      at.b in t.boards && At(t, at) == Some(e)
  {
  }

  /** Such as: a child that remaps "k" to "@x", below a root without entries. */
  lemma AtTargetExample(root: Blackboard, child: Blackboard, info: TypeInfo, novel: Entry)
    requires root.parent == null && child.parent == root && root.depth < child.depth
    ensures var s := State(map[root := Board(map[], map[], false), child := Board(map[], map["k" := "@x"], false)],
                         map[]);
      && WellFormed(s) && Create(s, child, "k", info, novel).Ok?
      && var (t, e) := Create(s, child, "k", info, novel).value;
        e == novel && WellFormed(t) && Find(t, child, "k") == None && At(t, Slot(root, "@x")) == Some(novel)
  {
    var s := State(map[root := Board(map[], map[], false), child := Board(map[], map["k" := "@x"], false)], map[]);
    assert CreateImpl(s, root, "@x", info, novel) == Ok((Added(s, root, "@x", info, novel), novel));
    var t := Added(s, root, "@x", info, novel);
    assert "@x"[1..] == "x";
    assert Root(t, root) == root;
    assert Find(t, root, "x") == None;
    assert Find(t, root, "@x") == Find(t, root, "x");
  }

  /** A board that remaps such a key can bring it back: here the entry is created and found under
      "x" in the root, though the child hands on "@x". */
  lemma AtSourceExample(root: Blackboard, mid: Blackboard, child: Blackboard, info: TypeInfo, novel: Entry)
    requires root.parent == null && mid.parent == root && child.parent == mid && root.depth < mid.depth < child.depth
    ensures var s := State(map[root := Board(map[], map[], false), mid := Board(map[], map["@x" := "x"], false),
                               child := Board(map[], map["k" := "@x"], false)], map[]);
      && WellFormed(s) && HandsOnAt(s, child, "k") && RemapsAtKey(s, child, "k")
      && CreateSlot(s, child, "k") == Some(Slot(root, "x")) && LookupSlot(s, child, "k") == Slot(root, "x")
  {
    var s := State(map[root := Board(map[], map[], false), mid := Board(map[], map["@x" := "x"], false),
                       child := Board(map[], map["k" := "@x"], false)], map[]);
    assert WellFormed(s);
    assert CreateSlot(s, mid, "@x") == CreateSlot(s, root, "x") == Some(Slot(root, "x"));
    assert RemapsAtKey(s, mid, "@x");
    assert "@x"[1..] == "x";
    assert Root(s, mid) == Root(s, root) == root;
    assert LookupSlot(s, mid, "@x") == LookupSlot(s, root, "x");
  }

  // ---------------------------------------------------------------- which board a key belongs to

  /** A key that begins with an underscore, and that the board does not remap, is the board's own: what
      any other board stores makes no difference. */
  lemma PrivateKeysStay(s: State, b: Blackboard, k: string)
    requires WellFormed(s) && b in s.boards && k != "" && k[0] == '_' && k !in s.boards[b].remapping
    ensures Find(s, b, k) == if k in s.boards[b].storage then Some(s.boards[b].storage[k]) else None
    ensures LookupSlot(s, b, k) == Slot(b, k) && CreateSlot(s, b, k) == Some(Slot(b, k))
  {
  }

  /** So createEntry finds it there or makes it there. */
  lemma PrivateKeyCreated(s: State, b: Blackboard, k: string, info: TypeInfo, novel: Entry)
    requires WellFormed(s) && b in s.boards && k != "" && k[0] == '_' && k !in s.boards[b].remapping
    requires k !in s.boards[b].storage
    ensures Create(s, b, k, info, novel) == Ok((Added(s, b, k, info, novel), novel))
  {
  }

  /** With auto-remapping, any other key that the board has not is looked up and created on the parent
      under the same name, */
  lemma AutoRemapped(s: State, b: Blackboard, k: string, info: TypeInfo, novel: Entry)
    requires WellFormed(s) && b in s.boards && b.parent != null && s.boards[b].autoRemapping
    requires k !in s.boards[b].storage && k !in s.boards[b].remapping
    requires k == "" || (k[0] != '_' && k[0] != '@')
    ensures b.parent in s.boards && b.parent.depth < b.depth
    ensures Find(s, b, k) == Find(s, b.parent, k) && LookupSlot(s, b, k) == LookupSlot(s, b.parent, k)
    ensures CreateImpl(s, b, k, info, novel) == CreateImpl(s, b.parent, k, info, novel)
    ensures CreateSlot(s, b, k) == CreateSlot(s, b.parent, k)
  {
    hide WellFormed;
    ParentKnown(s, b);
  }

  /** and without it, it is the board's own. */
  lemma NotRemapped(s: State, b: Blackboard, k: string)
    requires WellFormed(s) && b in s.boards && !s.boards[b].autoRemapping
    requires k !in s.boards[b].remapping && (k == "" || k[0] != '@')
    ensures Find(s, b, k) == if k in s.boards[b].storage then Some(s.boards[b].storage[k]) else None
    ensures LookupSlot(s, b, k) == Slot(b, k) && CreateSlot(s, b, k) == Some(Slot(b, k))
  {
  }

  /** A key that the board remaps, private or not, is the parent's under the other name, unless the board
      has an entry under it already. */
  lemma Remapped(s: State, b: Blackboard, k: string, info: TypeInfo, novel: Entry)
    requires WellFormed(s) && b in s.boards && b.parent != null && k in s.boards[b].remapping
    requires k == "" || k[0] != '@'
    ensures b.parent in s.boards
    ensures var k' := s.boards[b].remapping[k];
      if k in s.boards[b].storage then
        Find(s, b, k) == Some(s.boards[b].storage[k]) && CreateSlot(s, b, k) == Some(Slot(b, k))
      else
        && Find(s, b, k) == Find(s, b.parent, k') && CreateSlot(s, b, k) == CreateSlot(s, b.parent, k')
        && CreateImpl(s, b, k, info, novel) == CreateImpl(s, b.parent, k', info, novel)
  {
    hide WellFormed;
    ParentKnown(s, b);
  }

  /** A key after an at sign is the root's, and on the root nothing is remapped. */
  lemma AtKeysAreRoots(s: State, b: Blackboard, k: string)
    requires WellFormed(s) && b in s.boards && (k == "" || k[0] != '@')
    ensures var root := Root(s, b);
      && root.parent == null
      && Find(s, b, "@" + k) == (if k in s.boards[root].storage then Some(s.boards[root].storage[k]) else None)
  {
    hide WellFormed;
    assert ("@" + k)[1..] == k;
    assert Find(s, b, "@" + k) == Find(s, Root(s, b), k);
  }

  // ---------------------------------------------------------------- declared types

  /** Declaring an entry again is refused exactly if it has a definite type and the new one is another
      definite type. */
  lemma RedeclaredExactly(s: State, b: Blackboard, k: string, info: TypeInfo, novel: Entry)
    requires WellFormed(s) && b in s.boards && k in s.boards[b].storage
    ensures var e := s.boards[b].storage[k];
      var had := s.entries[e].info.id;
      && CreateImpl(s, b, k, info, novel)
        == if had != info.id && had !in {AnyTypeAllowed, BtAny} && info.id !in {AnyTypeAllowed, BtAny}
           then Err(TypeMismatch) else Ok((s, e))
  {
  }

  // ---------------------------------------------------------------- set and unset

  /** What set declares for a new entry: a string leaves the type open. */
  function CreationInfo(t: TypeId, v: Any): TypeInfo {
    if t == String then TypeInfo(AnyTypeAllowed, None) else TypeInfo(v.of, Some(t))
  }

  /** What set makes of an entry it finds on the board. */
  function Overwritten(c: Content, t: TypeId, v: Any, convert: Convert): Option<Content> {
    if !StronglyTyped(c.info) then
      Some(c.(value := v, info := TypeInfo(t, Some(t)), sequenceId := c.sequenceId + 1))
    else
      match convert(c.info, c.value, t, v)
      case Some(x) => Some(c.(value := x, sequenceId := c.sequenceId + 1))
      case None => None
  }

  ghost function Set(s: State, b: Blackboard, k: string, t: TypeId, v: Any, convert: Convert,
          novel: Entry): (r: Result<State>)
    requires WellFormed(s) && b in s.boards
    decreases |k|
  {
    var storage := s.boards[b].storage;
    if StartsWithAt(k) then Set(s, Root(s, b), k[1..], t, v, convert, novel)
    else if k in storage then
      match Overwritten(s.entries[storage[k]], t, v, convert)
      case Some(c) => Ok(s.(entries := s.entries[storage[k] := c]))
      case None => Err(TypeMismatch)
    else
      match CreateImpl(s, b, k, CreationInfo(t, v), novel)
      case Err(error) => Err(error)
      case Ok((u, e)) =>
        Ok(u.(entries := u.entries[e := u.entries[e].(value := v, sequenceId := u.entries[e].sequenceId + 1)]))
  }

  /** Only the board itself: neither '@' nor remapping is looked at. */
  ghost function Unset(s: State, b: Blackboard, k: string): State
    requires b in s.boards
  {
    s.(boards := s.boards[b := s.boards[b].(storage := s.boards[b].storage - {k})])
  }

  /** The board and key that set works on, all '@' taken off. */
  function Base(s: State, b: Blackboard, k: string): (r: Slot)
    requires WellFormed(s) && b in s.boards
    ensures r.b in s.boards && !StartsWithAt(r.k)
    decreases |k|
  {
    if StartsWithAt(k) then Base(s, Root(s, b), k[1..]) else Slot(b, k)
  }

  lemma {:induction false} SetAtBase(s: State, b: Blackboard, k: string, t: TypeId, v: Any, convert: Convert,
          novel: Entry)
    requires WellFormed(s) && b in s.boards
    ensures var base := Base(s, b, k);
      && Set(s, b, k, t, v, convert, novel) == Set(s, base.b, base.k, t, v, convert, novel)
      && LookupSlot(s, b, k) == LookupSlot(s, base.b, base.k) && Find(s, b, k) == Find(s, base.b, base.k)
    decreases |k|
  {
    hide CreateImpl;
    if StartsWithAt(k) {
      SetAtBase(s, Root(s, b), k[1..], t, v, convert, novel);
    }
  }

  /** Lookup looks at the boards alone. */
  lemma {:induction false} BoardsDecide(s: State, u: State, b: Blackboard, k: string)
    requires WellFormed(s) && WellFormed(u) && s.boards == u.boards && b in s.boards
    ensures Find(u, b, k) == Find(s, b, k)
    ensures Base(u, b, k) == Base(s, b, k)
    decreases b.depth, |k|
  {
    SameRoot(s, u, b);
    if StartsWithAt(k) {
      BoardsDecide(s, u, Root(s, b), k[1..]);
    } else if k !in s.boards[b].storage && b.parent != null {
      if k in s.boards[b].remapping {
        BoardsDecide(s, u, b.parent, s.boards[b].remapping[k]);
      } else if s.boards[b].autoRemapping && !IsPrivateKey(k) {
        BoardsDecide(s, u, b.parent, k);
      }
    }
  }

  /** What set stores under the key: the value, or what it is converted to if the board has an
      entry of a strong type. */
  function Stored(s: State, b: Blackboard, k: string, t: TypeId, v: Any, convert: Convert): Option<Any>
    requires WellFormed(s) && b in s.boards
  {
    match At(s, Base(s, b, k))
    case Some(e) =>
      if StronglyTyped(s.entries[e].info) then convert(s.entries[e].info, s.entries[e].value, t, v) else Some(v)
    case None => Some(v)
  }

  /** After set, a lookup of the same key on the same board finds the entry that holds what was
      stored; every other entry has what it had. */
  lemma SetThenGet(s: State, b: Blackboard, k: string, t: TypeId, v: Any, convert: Convert, novel: Entry)
    requires WellFormed(s) && Injective(s) && b in s.boards && novel !in s.entries
    requires !HandsOnAt(s, Base(s, b, k).b, Base(s, b, k).k)
    requires Set(s, b, k, t, v, convert, novel).Ok?
    ensures var u := Set(s, b, k, t, v, convert, novel).value;
      && WellFormed(u) && Injective(u) && u.boards.Keys == s.boards.Keys && Find(u, b, k).Some?
      && var e := Find(u, b, k).value;
        && Some(u.entries[e].value) == Stored(s, b, k, t, v, convert)
        && (forall e' :: e' in s.entries && e' != e ==> e' in u.entries && u.entries[e'] == s.entries[e'])
  {
    hide Find, Injective, CreateImpl, LookupSlot, CreateSlot, Root, HandsOnAt;
    var base := Base(s, b, k);
    SetAtBase(s, b, k, t, v, convert, novel);
    var u := Set(s, b, k, t, v, convert, novel).value;
    if base.k in s.boards[base.b].storage {
      SetLocal(s, base, t, v, convert, novel);
      BoardsDecide(s, u, b, k);
    } else {
      SetNew(s, base, t, v, convert, novel);
      SetBase(s, u, b, k);
    }
  }

  /** What set does to an entry of the board: an entry without a definite type takes value and type as
      they come; any other takes the value its type converts it to, or refuses it. Each change counts
      one up. */
  lemma SetExisting(s: State, b: Blackboard, k: string, t: TypeId, v: Any, convert: Convert, novel: Entry)
    requires WellFormed(s) && b in s.boards && k in s.boards[b].storage && (k == "" || k[0] != '@')
    ensures var e := s.boards[b].storage[k];
      var c := s.entries[e];
      Set(s, b, k, t, v, convert, novel) ==
        if c.info.id == AnyTypeAllowed || c.info.id == BtAny then
          Ok(s.(entries := s.entries[e := Content(v, TypeInfo(t, Some(t)), c.converter, c.sequenceId + 1)]))
        else
          match convert(c.info, c.value, t, v)
          case Some(x) => Ok(s.(entries := s.entries[e := Content(x, c.info, c.converter, c.sequenceId + 1)]))
          case None => Err(TypeMismatch)
  {
  }

  /** An entry that set has to make begins with the value and a count of one; its type is that of the
      value, but open for a string. */
  lemma SetMakes(s: State, b: Blackboard, k: string, t: TypeId, v: Any, convert: Convert, novel: Entry)
    requires WellFormed(s) && b in s.boards && novel !in s.entries && (k == "" || k[0] != '@')
    requires CreateSlot(s, b, k).Some? && At(s, CreateSlot(s, b, k).value) == None
    ensures var slot := CreateSlot(s, b, k).value;
      var u := Set(s, b, k, t, v, convert, novel);
      && u.Ok? && u.value.entries == s.entries[novel := Content(v,
        if t == String then TypeInfo(AnyTypeAllowed, None) else TypeInfo(v.of, Some(t)), None, 1)]
      && slot.b in u.value.boards && At(u.value, slot) == Some(novel)
      && forall other :: other in s.boards && other != slot.b ==>
        other in u.value.boards && u.value.boards[other] == s.boards[other]
  {
    hide CreateImpl, CreateSlot, Find, LookupSlot, Root, WellFormed;
    CreatesAtSlot(s, b, k, CreationInfo(t, v), novel);
    NotStored(s, b, k);
  }

  lemma NotStored(s: State, b: Blackboard, k: string)
    requires WellFormed(s) && b in s.boards && CreateSlot(s, b, k).Some? && At(s, CreateSlot(s, b, k).value) == None
    ensures k !in s.boards[b].storage
  {
  }

  lemma SetLocal(s: State, base: Slot, t: TypeId, v: Any, convert: Convert, novel: Entry)
    requires WellFormed(s) && Injective(s) && base.b in s.boards && !StartsWithAt(base.k)
    requires base.k in s.boards[base.b].storage && Set(s, base.b, base.k, t, v, convert, novel).Ok?
    ensures var u := Set(s, base.b, base.k, t, v, convert, novel).value;
      && u.boards == s.boards && WellFormed(u) && Injective(u)
      && Find(s, base.b, base.k) == Some(s.boards[base.b].storage[base.k])
  {
  }

  lemma SetNew(s: State, base: Slot, t: TypeId, v: Any, convert: Convert, novel: Entry)
    requires WellFormed(s) && Injective(s) && base.b in s.boards && !StartsWithAt(base.k)
    requires !HandsOnAt(s, base.b, base.k)
    requires base.k !in s.boards[base.b].storage && Set(s, base.b, base.k, t, v, convert, novel).Ok?
    requires novel !in s.entries
    ensures var u := Set(s, base.b, base.k, t, v, convert, novel).value;
      && WellFormed(u) && Injective(u) && u.boards.Keys == s.boards.Keys && Find(u, base.b, base.k).Some?
      && var e := Find(u, base.b, base.k).value;
        && u.entries[e].value == v
        && (forall e' :: e' in s.entries && e' != e ==> e' in u.entries && u.entries[e'] == s.entries[e'])
  {
    hide Find, CreateImpl, LookupSlot, CreateSlot, Root, HandsOnAt;
    CreateThenFind(s, base.b, base.k, CreationInfo(t, v), novel);
    AgreeAtSlots(s, base.b, base.k, CreationInfo(t, v), novel);
    var (u', e) := CreateImpl(s, base.b, base.k, CreationInfo(t, v), novel).value;
    var u := Set(s, base.b, base.k, t, v, convert, novel).value;
    BoardsDecide(u', u, base.b, base.k);
    CreatesAtSlot(s, base.b, base.k, CreationInfo(t, v), novel);
  }

  lemma {:induction false} SetBase(s: State, u: State, b: Blackboard, k: string)
    requires WellFormed(s) && WellFormed(u) && s.boards.Keys == u.boards.Keys && b in s.boards
    ensures Base(u, b, k) == Base(s, b, k)
    ensures Find(u, b, k) == Find(u, Base(s, b, k).b, Base(s, b, k).k)
    decreases |k|
  {
    SameRoot(s, u, b);
    if StartsWithAt(k) {
      SetBase(s, u, Root(s, b), k[1..]);
    }
  }

  lemma {:induction false} SameRoot(s: State, u: State, b: Blackboard)
    requires WellFormed(s) && WellFormed(u) && s.boards.Keys == u.boards.Keys && b in s.boards
    ensures Root(u, b) == Root(s, b)
    decreases b.depth
  {
    if b.parent != null {
      SameRoot(s, u, b.parent);
    }
  }

  // ---------------------------------------------------------------- in place

  ghost function BoardsOf(boards: set<Blackboard>): (r: map<Blackboard, Board>)
    reads boards
    ensures r.Keys == boards
  {
    map b | b in boards :: Board(b.storage, b.remapping, b.autoRemapping)
  }

  ghost function Contents(entries: set<Entry>): (r: map<Entry, Content>)
    reads entries
    ensures r.Keys == entries
  {
    map e | e in entries :: e.ToContent()
  }

  ghost function Snapshot(boards: set<Blackboard>, entries: set<Entry>): (s: State)
    reads boards, entries
    ensures s.boards.Keys == boards && s.entries.Keys == entries
  {
    State(BoardsOf(boards), Contents(entries))
  }

  lemma SnapshotAt(boards: set<Blackboard>, entries: set<Entry>, b: Blackboard)
    requires b in boards
    ensures Snapshot(boards, entries).boards[b] == Board(b.storage, b.remapping, b.autoRemapping)
  {
  }

  lemma SnapshotOf(boards: set<Blackboard>, entries: set<Entry>, e: Entry)
    requires e in entries
    ensures Snapshot(boards, entries).entries[e] == e.ToContent()
  {
  }

  lemma StoredKnown(s: State, b: Blackboard, k: string)
    requires WellFormed(s) && b in s.boards && k in s.boards[b].storage
    ensures s.boards[b].storage[k] in s.entries
  {
  }

  class Blackboard {
    const parent: Blackboard?
    ghost const depth: nat
    var storage: map<string, Entry>
    var remapping: map<string, string>
    var autoRemapping: bool

    constructor (parent: Blackboard?)
      ensures this.parent == parent && storage == map[] && remapping == map[] && !autoRemapping
      ensures parent != null ==> parent.depth < depth
    {
      this.parent := parent;
      depth := if parent == null then 0 else parent.depth + 1;
      storage := map[];
      remapping := map[];
      autoRemapping := false;
    }

    method EnableAutoRemapping(on: bool)
      modifies this`autoRemapping
      ensures autoRemapping == on
    {
      autoRemapping := on;
    }

    /** A key that has a remapping keeps it. */
    method AddSubtreeRemapping(inner: string, outer: string)
      modifies this`remapping
      ensures remapping == map[inner := outer] + old(remapping)
    {
      if inner !in remapping {
        remapping := remapping[inner := outer];
      }
    }

    method RootBlackboard(ghost boards: set<Blackboard>, ghost entries: set<Entry>) returns (bb: Blackboard)
      requires this in boards && WellFormed(Snapshot(boards, entries))
      ensures bb == Root(Snapshot(boards, entries), this)
    {
      bb := this;
      var prev := parent;
      while prev != null
        invariant bb in boards && prev == bb.parent
        invariant Root(Snapshot(boards, entries), bb) == Root(Snapshot(boards, entries), this)
        decreases bb.depth
      {
        bb := prev;
        prev := bb.parent;
      }
    }

    method GetEntry(ghost boards: set<Blackboard>, ghost entries: set<Entry>, key: string) returns (r: Option<Entry>)
      requires this in boards && WellFormed(Snapshot(boards, entries))
      ensures r == Find(Snapshot(boards, entries), this, key)
      decreases depth, |key|
    {
      if StartsWithAt(key) {
        var root := RootBlackboard(boards, entries);
        r := root.GetEntry(boards, entries, key[1..]);
        return;
      }
      if key in storage {
        return Some(storage[key]);
      }
      if parent != null {
        if key in remapping {
          r := parent.GetEntry(boards, entries, remapping[key]);
          return;
        }
        if autoRemapping && !IsPrivateKey(key) {
          r := parent.GetEntry(boards, entries, key);
          return;
        }
      }
      return None;
    }

    /** A new entry on this board. */
    method AddEntry(ghost boards: set<Blackboard>, ghost entries: set<Entry>, key: string,
            info: TypeInfo) returns (e: Entry)
      requires this in boards
      modifies this`storage
      ensures fresh(e)
      ensures Snapshot(boards, entries + {e}) == Added(old(Snapshot(boards, entries)), this, key, info, e)
    {
      hide Contents, BoardsOf;
      e := new Entry(info);
      ContentsWith(entries, e);
      StoreEntry(boards, key, e);
    }

    method StoreEntry(ghost boards: set<Blackboard>, key: string, e: Entry)
      requires this in boards
      modifies this`storage
      ensures var bs := old(BoardsOf(boards));
        BoardsOf(boards) == bs[this := bs[this].(storage := bs[this].storage[key := e])]
    {
      storage := storage[key := e];
    }

    static lemma ContentsWith(entries: set<Entry>, e: Entry)
      ensures Contents(entries + {e}) == Contents(entries)[e := e.ToContent()]
    {
    }

    method CreateEntryImpl(ghost boards: set<Blackboard>, ghost entries: set<Entry>, key: string, info: TypeInfo)
      returns (r: Result<Entry>)
      requires this in boards && WellFormed(Snapshot(boards, entries))
      modifies boards`storage
      ensures r.Ok? ==> r.value in entries || fresh(r.value)
      ensures r.Ok? ==>
        CreateImpl(old(Snapshot(boards, entries)), this, key, info, r.value)
          == Ok((Snapshot(boards, entries + {r.value}), r.value))
      ensures r.Err? ==> Snapshot(boards, entries) == old(Snapshot(boards, entries))
      ensures r.Err? ==>
        forall novel: Entry :: CreateImpl(old(Snapshot(boards, entries)), this, key, info, novel) == Err(r.error)
      decreases depth
    {
      hide WellFormed, Added, Compatible, Snapshot;
      ghost var s := Snapshot(boards, entries);
      SnapshotAt(boards, entries, this);
      if parent != null {
        ParentKnown(s, this);
      }
      if key in storage {
        var e := storage[key];
        StoredKnown(s, this, key);
        SnapshotOf(boards, entries, e);
        assert entries + {e} == entries;
        return if Compatible(e.info, info) then Ok(e) else Err(TypeMismatch);
      }
      if key in remapping {
        if parent == null {
          return Err(MissingParent);
        }
        r := parent.CreateEntryImpl(boards, entries, remapping[key], info);
        return;
      }
      if autoRemapping && !IsPrivateKey(key) {
        if parent == null {
          return Err(MissingParent);
        }
        r := parent.CreateEntryImpl(boards, entries, key, info);
        return;
      }
      var e := AddEntry(boards, entries, key, info);
      return Ok(e);
    }

    method CreateEntry(ghost boards: set<Blackboard>, ghost entries: set<Entry>, key: string, info: TypeInfo)
      returns (r: Result<Entry>)
      requires this in boards && WellFormed(Snapshot(boards, entries))
      modifies boards`storage
      ensures r.Ok? ==> r.value in entries || fresh(r.value)
      ensures r.Ok? ==>
        Create(old(Snapshot(boards, entries)), this, key, info, r.value)
          == Ok((Snapshot(boards, entries + {r.value}), r.value))
      ensures r.Err? ==> Snapshot(boards, entries) == old(Snapshot(boards, entries))
      ensures r.Err? ==>
        forall novel: Entry :: Create(old(Snapshot(boards, entries)), this, key, info, novel) == Err(r.error)
    {
      hide CreateImpl;
      if StartsWithAt(key) {
        if '@' in key[1..] {
          return Err(AtTwice);
        }
        var root := RootBlackboard(boards, entries);
        r := root.CreateEntryImpl(boards, entries, key[1..], info);
      } else {
        r := CreateEntryImpl(boards, entries, key, info);
      }
    }

    /** The value stored is v, of type t. The result is the entry set worked on. */
    method SetValue(ghost boards: set<Blackboard>, ghost entries: set<Entry>, key: string, t: TypeId, v: Any,
            convert: Convert)
      returns (r: Result<Entry>)
      requires this in boards && WellFormed(Snapshot(boards, entries))
      modifies boards`storage, entries
      ensures r.Ok? ==> r.value in entries || fresh(r.value)
      ensures r.Ok? ==>
        Set(old(Snapshot(boards, entries)), this, key, t, v, convert, r.value)
          == Ok(Snapshot(boards, entries + {r.value}))
      ensures r.Err? ==> Snapshot(boards, entries) == old(Snapshot(boards, entries))
      ensures r.Err? ==>
        forall novel: Entry :: Set(old(Snapshot(boards, entries)), this, key, t, v, convert, novel) == Err(r.error)
      decreases |key|
    {
      if StartsWithAt(key) {
        var root := RootBlackboard(boards, entries);
        r := root.SetValue(boards, entries, key[1..], t, v, convert);
        return;
      }
      if key in storage {
        r := OverwriteEntry(boards, entries, key, t, v, convert);
        return;
      }
      r := SetNewValue(boards, entries, key, t, v, convert);
    }

    method AssignEntry(ghost boards: set<Blackboard>, ghost entries: set<Entry>, entry: Entry, v: Any)
      requires entry in entries
      modifies entry
      ensures var s := old(Snapshot(boards, entries));
        Snapshot(boards, entries)
          == s.(entries := s.entries[entry := s.entries[entry].(
            value := v, sequenceId := s.entries[entry].sequenceId + 1)])
    {
      ghost var s := Snapshot(boards, entries);
      entry.value := v;
      entry.sequenceId := entry.sequenceId + 1;
      assert Snapshot(boards, entries).entries == s.entries[entry := entry.ToContent()];
      assert Snapshot(boards, entries).boards == s.boards;
    }

    method RetypeEntry(ghost boards: set<Blackboard>, ghost entries: set<Entry>, entry: Entry, t: TypeId, v: Any)
      requires entry in entries
      modifies entry
      ensures var s := old(Snapshot(boards, entries));
        Snapshot(boards, entries) == s.(entries := s.entries[entry := s.entries[entry].(
          value := v, info := TypeInfo(t, Some(t)), sequenceId := s.entries[entry].sequenceId + 1)])
    {
      ghost var s := Snapshot(boards, entries);
      entry.info := TypeInfo(t, Some(t));
      entry.sequenceId := entry.sequenceId + 1;
      entry.value := v;
      assert Snapshot(boards, entries).entries == s.entries[entry := entry.ToContent()];
      assert Snapshot(boards, entries).boards == s.boards;
    }

    static lemma EntryAt(boards: set<Blackboard>, entries: set<Entry>, e: Entry)
      requires e in entries
      ensures Snapshot(boards, entries).entries[e] == e.ToContent()
    {
    }

    method OverwriteEntry(ghost boards: set<Blackboard>, ghost entries: set<Entry>, key: string, t: TypeId, v: Any,
            convert: Convert)
      returns (r: Result<Entry>)
      requires this in boards && WellFormed(Snapshot(boards, entries)) && !StartsWithAt(key) && key in storage
      modifies entries
      ensures r.Ok? ==> r.value in entries
      ensures r.Ok? ==>
        Set(old(Snapshot(boards, entries)), this, key, t, v, convert, r.value)
          == Ok(Snapshot(boards, entries + {r.value}))
      ensures r.Err? ==> Snapshot(boards, entries) == old(Snapshot(boards, entries))
      ensures r.Err? ==>
        forall novel: Entry :: Set(old(Snapshot(boards, entries)), this, key, t, v, convert, novel) == Err(r.error)
    {
      hide WellFormed, StronglyTyped, Snapshot;
      var entry := storage[key];
      ghost var s := Snapshot(boards, entries);
      SnapshotAt(boards, entries, this);
      StoredKnown(s, this, key);
      EntryAt(boards, entries, entry);
      assert entries + {entry} == entries;
      if !StronglyTyped(entry.info) {
        RetypeEntry(boards, entries, entry, t, v);
      } else {
        match convert(entry.info, entry.value, t, v)
        case None => return Err(TypeMismatch);
        case Some(x) => AssignEntry(boards, entries, entry, x);
      }
      return Ok(entry);
    }

    method SetNewValue(ghost boards: set<Blackboard>, ghost entries: set<Entry>, key: string, t: TypeId, v: Any,
            convert: Convert)
      returns (r: Result<Entry>)
      requires this in boards && WellFormed(Snapshot(boards, entries)) && !StartsWithAt(key) && key !in storage
      modifies boards`storage, entries
      ensures r.Ok? ==> r.value in entries || fresh(r.value)
      ensures r.Ok? ==>
        Set(old(Snapshot(boards, entries)), this, key, t, v, convert, r.value)
          == Ok(Snapshot(boards, entries + {r.value}))
      ensures r.Err? ==> Snapshot(boards, entries) == old(Snapshot(boards, entries))
      ensures r.Err? ==>
        forall novel: Entry :: Set(old(Snapshot(boards, entries)), this, key, t, v, convert, novel) == Err(r.error)
    {
      hide CreateImpl, WellFormed, CreationInfo, BoardsOf, Contents;
      ghost var s := Snapshot(boards, entries);
      SnapshotAt(boards, entries, this);
      r := CreateEntryImpl(boards, entries, key, CreationInfo(t, v));
      if r.Ok? {
        var entry := r.value;
        ghost var u := Snapshot(boards, entries + {entry});
        AssignEntry(boards, entries + {entry}, entry, v);
      } else {
        forall novel: Entry ensures Set(s, this, key, t, v, convert, novel) == Err(r.error) {
          assert CreateImpl(s, this, key, CreationInfo(t, v), novel) == Err(r.error);
        }
      }
    }

    method UnsetValue(ghost boards: set<Blackboard>, ghost entries: set<Entry>, key: string)
      requires this in boards
      modifies this`storage
      ensures Snapshot(boards, entries) == Unset(old(Snapshot(boards, entries)), this, key)
    {
      if key in storage {
        storage := storage - {key};
      }
      assert storage == old(storage) - {key};
      assert Snapshot(boards, entries).boards == Unset(old(Snapshot(boards, entries)), this, key).boards;
    }
  }
}

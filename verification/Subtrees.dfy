/** How a tree is instantiated from its XML, subtree by subtree (recursivelyCreateSubtree in
    xml_parsing.cpp). */
module Subtrees {

  datatype Option<+T> = None | Some(value: T)

  /** An element of a behavior tree: a node of some registered type, or a reference to a tree, whose
      own children are not looked at. */
  datatype Element =
    | Node(typeId: string, name: Option<string>, children: seq<Element>)
    | SubTree(typeId: string, name: Option<string>, children: seq<Element>)

  /** The registered trees and their root elements. */
  type Roots = map<string, Element>

  datatype NodeOut = NodeOut(uid: nat, path: string, typeId: string)

  datatype SubtreeOut = SubtreeOut(treeId: string, instanceName: string, nodes: seq<NodeOut>)

  /** The tree being built, and (a history) all its nodes in the order they were created. */
  datatype Out = Out(subtrees: seq<SubtreeOut>, uidCounter: nat, log: seq<NodeOut>)

  datatype Error = CYCLE | MISSING | TOO_DEEP | DUPLICATE

  /** What was built, up to the exception if there was one. */
  datatype Outcome = Outcome(out: Out, error: Option<Error>)

  const MAX_NESTING_DEPTH := 256
  const UID_LIMIT := 0x1_0000
  const EMPTY := Out([], 0, [])

  // ---------------------------------------------------------------- numbers

  /** std::to_string. */
  function Digits(n: nat): (r: string)
    ensures r != [] && forall c :: c in r ==> '0' <= c <= '9'
  {
    (if n < 10 then "" else Digits(n / 10)) + [('0' as int + n % 10) as char]
  }

  lemma OneDigit(n: nat)
    ensures |Digits(n)| == 1 <==> n < 10
  {
  }

  lemma {:induction false} DigitsDiffer(a: nat, b: nat)
    requires Digits(a) == Digits(b)
    ensures a == b
    decreases a + b
  {
    var x, y := Digits(a), Digits(b);
    assert x[|x| - 1] == y[|y| - 1];
    assert a % 10 == b % 10;
    if a >= 10 && b >= 10 {
      assert x == Digits(a / 10) + [x[|x| - 1]] && y == Digits(b / 10) + [y[|y| - 1]];
      assert Digits(a / 10) == x[..|x| - 1] && Digits(b / 10) == y[..|y| - 1];
      DigitsDiffer(a / 10, b / 10);
    } else {
      OneDigit(a);
      OneDigit(b);
    }
  }

  predicate AllDigits(s: string) {
    forall c :: c in s ==> '0' <= c <= '9'
  }

  lemma LongerDiffers(a: string, b: string, x: string, y: string)
    requires AllDigits(y) && |x| < |y|
    ensures a + ":" + x != b + ":" + y
  {
    var s, t := a + ":" + x, b + ":" + y;
    assert s[|s| - |x| - 1] == ':';
    assert t[|t| - |x| - 1] == y[|y| - |x| - 1];
    assert y[|y| - |x| - 1] in y;
  }

  /** What comes after the last colon is the same if the whole is. */
  lemma SameEnding(a: string, b: string, x: string, y: string)
    requires AllDigits(x) && AllDigits(y) && a + ":" + x == b + ":" + y
    ensures x == y
  {
    if |x| < |y| {
      LongerDiffers(a, b, x, y);
    } else if |y| < |x| {
      LongerDiffers(b, a, y, x);
    }
    assert (a + ":" + x)[|a| + 1..] == x;
    assert (b + ":" + y)[|b| + 1..] == y;
  }

  // ---------------------------------------------------------------- instantiation

  function OrElse(o: Option<string>, s: string): string {
    if o.Some? then o.value else s
  }

  /** createNodeFromXML, as far as names go. */
  function CreateNode(out: Out, k: nat, prefix: string, e: Element): Out
    requires k < |out.subtrees|
  {
    var uid := (out.uidCounter + 1) % UID_LIMIT;
    var instanceName := OrElse(e.name, e.typeId);
    var path := prefix + instanceName + if instanceName == e.typeId then "::" + Digits(uid) else "";
    var node := NodeOut(uid, path, e.typeId);
    var sub := out.subtrees[k];
    Out(out.subtrees[k := sub.(nodes := sub.nodes + [node])], uid, out.log + [node])
  }

  function SubtreePath(parent: string, e: Element, uid: nat): string {
    (if parent == "" then "" else parent + "/") + OrElse(e.name, e.typeId + "::" + Digits(uid))
  }

  predicate NameTaken(out: Out, path: string) {
    exists i :: 0 <= i < |out.subtrees| && out.subtrees[i].instanceName == path
  }

  function Weight(e: Element): (r: nat)
    ensures r >= 1
  {
    1 + WeightOf(e.children)
  }

  function WeightOf(cs: seq<Element>): nat {
    if cs == [] then 0 else WeightOf(cs[..|cs| - 1]) + Weight(cs[|cs| - 1])
  }

  function Create(roots: Roots, id: string, path: string, prefix: string, ancestors: set<string>,
          out: Out): (r: Outcome)
    ensures |out.subtrees| <= |r.out.subtrees|
    decreases |roots.Keys - ancestors|, 0, 0
  {
    if id in ancestors then Outcome(out, Some(CYCLE))
    else if id !in roots then Outcome(out, Some(MISSING))
    else
      assert roots.Keys - (ancestors + {id}) == (roots.Keys - ancestors) - {id};
      Step(roots, roots[id], |out.subtrees|, prefix, ancestors + {id},
           out.(subtrees := out.subtrees + [SubtreeOut(id, path, [])]), 0)
  }

  function Step(roots: Roots, e: Element, k: nat, prefix: string, ancestors: set<string>, out: Out,
          depth: nat): (r: Outcome)
    requires k < |out.subtrees|
    ensures |out.subtrees| <= |r.out.subtrees|
    decreases |roots.Keys - ancestors|, Weight(e), 1
  {
    if depth > MAX_NESTING_DEPTH then Outcome(out, Some(TOO_DEEP))
    else
      var created := CreateNode(out, k, prefix, e);
      if e.Node? then StepAll(roots, e.children, k, prefix, ancestors, created, depth + 1)
      else
        var path := SubtreePath(created.subtrees[k].instanceName, e, created.uidCounter);
        if NameTaken(created, path) then Outcome(created, Some(DUPLICATE))
        else Create(roots, e.typeId, path, path + "/", ancestors, created)
  }

  /** The children in turn, up to the first exception. */
  function StepAll(roots: Roots, cs: seq<Element>, k: nat, prefix: string, ancestors: set<string>, out: Out,
          depth: nat): (r: Outcome)
    requires k < |out.subtrees|
    ensures |out.subtrees| <= |r.out.subtrees|
    decreases |roots.Keys - ancestors|, WeightOf(cs), 2
  {
    if cs == [] then Outcome(out, None)
    else
      var before := StepAll(roots, cs[..|cs| - 1], k, prefix, ancestors, out, depth);
      if before.error.Some? then before else Step(roots, cs[|cs| - 1], k, prefix, ancestors, before.out, depth)
  }

  /** instantiateTree. */
  function Instantiate(roots: Roots, mainTree: string): Outcome {
    Create(roots, mainTree, "", "", {}, EMPTY)
  }

  // ---------------------------------------------------------------- UIDs

  /** The nodes are numbered in the order they are created, with numbers of sixteen bits. */
  predicate Numbered(out: Out) {
    && out.uidCounter == |out.log| % UID_LIMIT
    && forall i :: 0 <= i < |out.log| ==> out.log[i].uid == (i + 1) % UID_LIMIT
  }

  predicate DistinctNames(out: Out) {
    forall i, j :: 0 <= i < j < |out.subtrees| ==> out.subtrees[i].instanceName != out.subtrees[j].instanceName
  }

  /** What holds of the tree at every moment of its instantiation. */
  predicate WellBuilt(out: Out) {
    Numbered(out) && DistinctNames(out)
  }

  lemma CreateNodeKeeps(out: Out, k: nat, prefix: string, e: Element)
    requires k < |out.subtrees| && WellBuilt(out)
    ensures WellBuilt(CreateNode(out, k, prefix, e))
  {
  }

  lemma NewSubtreeKeeps(out: Out, id: string, path: string)
    requires WellBuilt(out) && !NameTaken(out, path)
    ensures WellBuilt(out.(subtrees := out.subtrees + [SubtreeOut(id, path, [])]))
  {
  }

  lemma {:induction false} CreateKeeps(roots: Roots, id: string, path: string, prefix: string,
          ancestors: set<string>, out: Out)
    requires WellBuilt(out) && !NameTaken(out, path)
    ensures WellBuilt(Create(roots, id, path, prefix, ancestors, out).out)
    decreases |roots.Keys - ancestors|, 0, 0
  {
    hide WellBuilt, NameTaken, Step;
    if id !in ancestors && id in roots {
      assert roots.Keys - (ancestors + {id}) == (roots.Keys - ancestors) - {id};
      NewSubtreeKeeps(out, id, path);
      StepKeeps(roots, roots[id], |out.subtrees|, prefix, ancestors + {id},
                out.(subtrees := out.subtrees + [SubtreeOut(id, path, [])]), 0);
    }
  }

  lemma {:induction false} StepKeeps(roots: Roots, e: Element, k: nat, prefix: string, ancestors: set<string>,
          out: Out, depth: nat)
    requires k < |out.subtrees| && WellBuilt(out)
    ensures WellBuilt(Step(roots, e, k, prefix, ancestors, out, depth).out)
    decreases |roots.Keys - ancestors|, Weight(e), 1
  {
    hide WellBuilt, NameTaken, Create, StepAll;
    if depth <= MAX_NESTING_DEPTH {
      CreateNodeKeeps(out, k, prefix, e);
      var created := CreateNode(out, k, prefix, e);
      if e.Node? {
        StepAllKeeps(roots, e.children, k, prefix, ancestors, created, depth + 1);
      } else {
        var path := SubtreePath(created.subtrees[k].instanceName, e, created.uidCounter);
        if !NameTaken(created, path) {
          CreateKeeps(roots, e.typeId, path, path + "/", ancestors, created);
        }
      }
    }
  }

  lemma {:induction false} StepAllKeeps(roots: Roots, cs: seq<Element>, k: nat, prefix: string,
          ancestors: set<string>, out: Out,
                                        depth: nat)
    requires k < |out.subtrees| && WellBuilt(out)
    ensures WellBuilt(StepAll(roots, cs, k, prefix, ancestors, out, depth).out)
    decreases |roots.Keys - ancestors|, WeightOf(cs), 2
  {
    hide WellBuilt, Step;
    if cs != [] {
      var before := StepAll(roots, cs[..|cs| - 1], k, prefix, ancestors, out, depth);
      StepAllKeeps(roots, cs[..|cs| - 1], k, prefix, ancestors, out, depth);
      if before.error.None? {
        StepKeeps(roots, cs[|cs| - 1], k, prefix, ancestors, before.out, depth);
      }
    }
  }

  /** The instance names of the subtrees are pairwise distinct, and the UIDs are consecutive, in the
      order of creation, up to 65535 nodes; then they start again from zero. */
  lemma InstantiateBuildsWell(roots: Roots, mainTree: string)
    ensures var out := Instantiate(roots, mainTree).out;
      && DistinctNames(out) && Numbered(out)
      && (|out.log| < UID_LIMIT ==> forall i :: 0 <= i < |out.log| ==> out.log[i].uid == i + 1)
  {
    hide Create;
    CreateKeeps(roots, mainTree, "", "", {}, EMPTY);
  }

  // ---------------------------------------------------------------- cycles

  ghost predicate Refers(e: Element, id: string) {
    match e
    case SubTree(typeId, _, _) => id == typeId
    case Node(_, _, children) => RefersOf(children, id)
  }

  ghost predicate RefersOf(cs: seq<Element>, id: string) {
    cs != [] && (RefersOf(cs[..|cs| - 1], id) || Refers(cs[|cs| - 1], id))
  }

  /** Each tree of the walk refers to the next. */
  ghost predicate IsWalk(roots: Roots, walk: seq<string>) {
    forall i :: 0 <= i < |walk| - 1 ==> walk[i] in roots && Refers(roots[walk[i]], walk[i + 1])
  }

  predicate NoRepeats(walk: seq<string>) {
    forall i, j :: 0 <= i < j < |walk| ==> walk[i] != walk[j]
  }

  function SetOf(walk: seq<string>): set<string> {
    set id | id in walk
  }

  /** From the tree one can come, from reference to reference, to some tree twice. */
  ghost predicate ReachesCycle(roots: Roots, id: string) {
    exists walk: seq<string> :: walk != [] && walk[0] == id && IsWalk(roots, walk) && !NoRepeats(walk)
  }

  /** Instantiation succeeded, so what an element refers to was instantiated too, with the same
      ancestors. */
  ghost predicate Succeeds(roots: Roots, id: string, ancestors: set<string>) {
    exists path, prefix, out :: Create(roots, id, path, prefix, ancestors, out).error.None?
  }

  lemma {:induction false} StepInstantiates(roots: Roots, e: Element, k: nat, prefix: string, ancestors: set<string>,
          out: Out,
                                            depth: nat, id: string)
    requires k < |out.subtrees| && Step(roots, e, k, prefix, ancestors, out, depth).error.None? && Refers(e, id)
    ensures Succeeds(roots, id, ancestors)
    decreases e
  {
    hide Create, StepAll;
    var created := CreateNode(out, k, prefix, e);
    if e.Node? {
      StepAllInstantiates(roots, e.children, k, prefix, ancestors, created, depth + 1, id);
    } else {
      var path := SubtreePath(created.subtrees[k].instanceName, e, created.uidCounter);
      assert Create(roots, id, path, path + "/", ancestors, created).error.None?;
    }
  }

  lemma {:induction false} StepAllInstantiates(roots: Roots, cs: seq<Element>, k: nat, prefix: string,
          ancestors: set<string>,
                                               out: Out, depth: nat, id: string)
    requires k < |out.subtrees| && StepAll(roots, cs, k, prefix, ancestors, out, depth).error.None? && RefersOf(cs, id)
    ensures Succeeds(roots, id, ancestors)
    decreases cs
  {
    hide Step, Succeeds;
    var before := StepAll(roots, cs[..|cs| - 1], k, prefix, ancestors, out, depth);
    if RefersOf(cs[..|cs| - 1], id) {
      StepAllInstantiates(roots, cs[..|cs| - 1], k, prefix, ancestors, out, depth, id);
    } else {
      StepInstantiates(roots, cs[|cs| - 1], k, prefix, ancestors, before.out, depth, id);
    }
  }

  lemma SucceedsBelow(roots: Roots, id: string, ancestors: set<string>, next: string)
    requires Succeeds(roots, id, ancestors)
    ensures id !in ancestors && id in roots
    ensures Refers(roots[id], next) ==> Succeeds(roots, next, ancestors + {id})
  {
    hide Refers;
    var path, prefix, out :| Create(roots, id, path, prefix, ancestors, out).error.None?;
    var started := out.(subtrees := out.subtrees + [SubtreeOut(id, path, [])]);
    if Refers(roots[id], next) {
      StepInstantiates(roots, roots[id], |out.subtrees|, prefix, ancestors + {id}, started, 0, next);
    }
  }

  lemma WalkTail(roots: Roots, walk: seq<string>)
    requires walk != [] && IsWalk(roots, walk)
    ensures IsWalk(roots, walk[1..])
  {
    hide Refers;
    var rest := walk[1..];
    forall i | 0 <= i < |rest| - 1 ensures rest[i] in roots && Refers(roots[rest[i]], rest[i + 1]) {
      assert rest[i] == walk[i + 1];
    }
  }

  /** No walk from a tree that was instantiated comes to an ancestor or to the same tree twice. */
  lemma {:induction false} WalksAreStraight(roots: Roots, id: string, ancestors: set<string>, walk: seq<string>)
    requires Succeeds(roots, id, ancestors) && walk != [] && walk[0] == id && IsWalk(roots, walk)
    ensures NoRepeats(walk) && SetOf(walk) !! ancestors
    decreases |walk|
  {
    hide Succeeds, Refers;
    SucceedsBelow(roots, id, ancestors, if |walk| > 1 then walk[1] else id);
    if |walk| > 1 {
      var rest := walk[1..];
      WalkTail(roots, walk);
      WalksAreStraight(roots, walk[1], ancestors + {id}, rest);
      assert forall j :: 0 < j < |walk| ==> walk[j] == rest[j - 1] && walk[j] in SetOf(rest);
    }
  }

  /** The exception for a cycle is thrown only if a walk along the ancestors runs into one. */
  lemma {:induction false} CreateCycle(roots: Roots, id: string, path: string, prefix: string, chain: seq<string>,
          out: Out)
    returns (walk: seq<string>)
    requires Create(roots, id, path, prefix, SetOf(chain), out).error == Some(CYCLE) && IsWalk(roots, chain + [id])
    ensures IsWalk(roots, walk) && !NoRepeats(walk) && chain + [id] <= walk
    decreases |roots.Keys - SetOf(chain)|, 0, 0
  {
    hide Step, Refers;
    if id in SetOf(chain) {
      walk := chain + [id];
      var i :| 0 <= i < |chain| && chain[i] == id;
      assert walk[i] == walk[|chain|];
    } else {
      hide IsWalk, NoRepeats;
      assert SetOf(chain + [id]) == SetOf(chain) + {id};
      assert roots.Keys - SetOf(chain + [id]) == (roots.Keys - SetOf(chain)) - {id};
      walk := StepCycle(roots, id, roots[id], |out.subtrees|, prefix, chain,
                        out.(subtrees := out.subtrees + [SubtreeOut(id, path, [])]), 0);
    }
  }

  lemma WalkOn(roots: Roots, walk: seq<string>, next: string)
    requires IsWalk(roots, walk) && walk != [] && walk[|walk| - 1] in roots && Refers(roots[walk[|walk| - 1]], next)
    ensures IsWalk(roots, walk + [next])
  {
    hide Refers;
  }

  /** e is an element of the tree id. */
  lemma {:induction false} StepCycle(roots: Roots, id: string, e: Element, k: nat, prefix: string,
          chain: seq<string>, out: Out,
                                     depth: nat) returns (walk: seq<string>)
    requires k < |out.subtrees| && Step(roots, e, k, prefix, SetOf(chain + [id]), out, depth).error == Some(CYCLE)
    requires IsWalk(roots, chain + [id]) && id in roots && forall next :: Refers(e, next) ==> Refers(roots[id], next)
    ensures IsWalk(roots, walk) && !NoRepeats(walk) && chain + [id] <= walk
    decreases |roots.Keys - SetOf(chain + [id])|, Weight(e), 1
  {
    hide Create, StepAll, IsWalk, NoRepeats;
    var created := CreateNode(out, k, prefix, e);
    if e.Node? {
      walk := StepAllCycle(roots, id, e.children, k, prefix, chain, created, depth + 1);
    } else {
      var path := SubtreePath(created.subtrees[k].instanceName, e, created.uidCounter);
      WalkOn(roots, chain + [id], e.typeId);
      walk := CreateCycle(roots, e.typeId, path, path + "/", chain + [id], created);
      assert chain + [id] <= chain + [id] + [e.typeId];
    }
  }

  lemma {:induction false} StepAllCycle(roots: Roots, id: string, cs: seq<Element>, k: nat, prefix: string,
          chain: seq<string>,
                                        out: Out, depth: nat) returns (walk: seq<string>)
    requires k < |out.subtrees| && StepAll(roots, cs, k, prefix, SetOf(chain + [id]), out, depth).error == Some(CYCLE)
    requires IsWalk(roots, chain + [id]) && id in roots && forall next :: RefersOf(cs, next) ==> Refers(roots[id], next)
    ensures IsWalk(roots, walk) && !NoRepeats(walk) && chain + [id] <= walk
    decreases |roots.Keys - SetOf(chain + [id])|, WeightOf(cs), 2
  {
    hide Step, IsWalk, NoRepeats;
    var before := StepAll(roots, cs[..|cs| - 1], k, prefix, SetOf(chain + [id]), out, depth);
    if before.error.Some? {
      walk := StepAllCycle(roots, id, cs[..|cs| - 1], k, prefix, chain, out, depth);
    } else {
      walk := StepCycle(roots, id, cs[|cs| - 1], k, prefix, chain, before.out, depth);
    }
  }

  /** Other errors aside, the cycle is reported exactly when a cycle of references can be reached
      from the main tree. */
  lemma CycleExactly(roots: Roots, mainTree: string)
    requires var error := Instantiate(roots, mainTree).error; error == None || error == Some(CYCLE)
    ensures Instantiate(roots, mainTree).error == Some(CYCLE) <==> ReachesCycle(roots, mainTree)
  {
    hide Create, Refers, IsWalk;
    if Instantiate(roots, mainTree).error == Some(CYCLE) {
      assert SetOf([]) == {};
      SingleWalk(roots, mainTree);
      assert [] + [mainTree] == [mainTree];
      var walk := CreateCycle(roots, mainTree, "", "", [], EMPTY);
    } else {
      assert Succeeds(roots, mainTree, {});
      forall walk: seq<string> | walk != [] && walk[0] == mainTree && IsWalk(roots, walk) ensures NoRepeats(walk) {
        WalksAreStraight(roots, mainTree, {}, walk);
      }
    }
  }

  lemma SingleWalk(roots: Roots, id: string)
    ensures IsWalk(roots, [id])
  {
  }

  /** Whatever other errors there are: if a cycle can be reached there is no success, and if none can
      be reached none is reported. */
  lemma NoFalseAlarm(roots: Roots, mainTree: string)
    ensures ReachesCycle(roots, mainTree) ==> Instantiate(roots, mainTree).error.Some?
    ensures !ReachesCycle(roots, mainTree) ==> Instantiate(roots, mainTree).error != Some(CYCLE)
  {
    hide Instantiate, ReachesCycle;
    var error := Instantiate(roots, mainTree).error;
    if error == None || error == Some(CYCLE) {
      CycleExactly(roots, mainTree);
    }
  }

  // ---------------------------------------------------------------- the unfolding

  /** A tree with every reference replaced by what it refers to. */
  datatype Unfolding =
    | Plain(typeId: string, name: Option<string>, kids: seq<Unfolding>)
    | Sub(typeId: string, name: Option<string>, body: Unfolding)

  predicate IsUnfolding(roots: Roots, e: Element, u: Unfolding)
    decreases u
  {
    match e
    case Node(typeId, name, children) =>
      u.Plain? && u.typeId == typeId && u.name == name && AreUnfoldings(roots, children, u.kids)
    case SubTree(typeId, name, _) =>
      u.Sub? && u.typeId == typeId && u.name == name && typeId in roots && IsUnfolding(roots, roots[typeId], u.body)
  }

  predicate AreUnfoldings(roots: Roots, cs: seq<Element>, us: seq<Unfolding>)
    decreases us
  {
    && |cs| == |us|
    && (us == [] ||
        (AreUnfoldings(roots, cs[..|cs| - 1], us[..|us| - 1]) && IsUnfolding(roots, cs[|cs| - 1], us[|us| - 1])))
  }

  /** The types in pre-order. */
  function PreOrder(u: Unfolding): seq<string> {
    match u
    case Plain(typeId, _, kids) => [typeId] + PreOrderOf(kids)
    case Sub(typeId, _, body) => [typeId] + PreOrder(body)
  }

  function PreOrderOf(us: seq<Unfolding>): seq<string> {
    if us == [] then [] else PreOrderOf(us[..|us| - 1]) + PreOrder(us[|us| - 1])
  }

  /** The trees that are referred to, in pre-order. */
  function TreeIds(u: Unfolding): seq<string> {
    match u
    case Plain(_, _, kids) => TreeIdsOf(kids)
    case Sub(typeId, _, body) => [typeId] + TreeIds(body)
  }

  function TreeIdsOf(us: seq<Unfolding>): seq<string> {
    if us == [] then [] else TreeIdsOf(us[..|us| - 1]) + TreeIds(us[|us| - 1])
  }

  /** The types of the nodes that belong to one tree, in pre-order. */
  function Labels(e: Element): seq<string> {
    [e.typeId] + if e.Node? then LabelsOf(e.children) else []
  }

  function LabelsOf(cs: seq<Element>): seq<string> {
    if cs == [] then [] else LabelsOf(cs[..|cs| - 1]) + Labels(cs[|cs| - 1])
  }

  function Types(nodes: seq<NodeOut>): seq<string> {
    seq(|nodes|, i requires 0 <= i < |nodes| => nodes[i].typeId)
  }

  function Ids(subtrees: seq<SubtreeOut>): seq<string> {
    seq(|subtrees|, i requires 0 <= i < |subtrees| => subtrees[i].treeId)
  }

  /** t is out with more nodes, of these types, and more subtrees, of these trees. */
  predicate Extends(out: Out, t: Out, types: seq<string>, ids: seq<string>) {
    Types(t.log) == Types(out.log) + types && Ids(t.subtrees) == Ids(out.subtrees) + ids
  }

  lemma ExtendsTrans(a: Out, b: Out, c: Out, types: seq<string>, ids: seq<string>, types': seq<string>,
          ids': seq<string>)
    requires Extends(a, b, types, ids) && Extends(b, c, types', ids')
    ensures Extends(a, c, types + types', ids + ids')
  {
    hide Types, Ids;
    assert Types(a.log) + (types + types') == Types(a.log) + types + types';
    assert Ids(a.subtrees) + (ids + ids') == Ids(a.subtrees) + ids + ids';
  }

  lemma CreateNodeExtends(out: Out, k: nat, prefix: string, e: Element)
    requires k < |out.subtrees|
    ensures Extends(out, CreateNode(out, k, prefix, e), [e.typeId], [])
  {
  }

  lemma NewSubtreeExtends(out: Out, id: string, path: string)
    ensures Extends(out, out.(subtrees := out.subtrees + [SubtreeOut(id, path, [])]), [], [id])
  {
  }

  lemma ExtendsSelf(out: Out)
    ensures Extends(out, out, [], [])
  {
  }

  lemma {:induction false} CreateUnfolds(roots: Roots, id: string, path: string, prefix: string,
          ancestors: set<string>, out: Out)
    returns (u: Unfolding)
    requires Create(roots, id, path, prefix, ancestors, out).error.None?
    ensures id in roots && IsUnfolding(roots, roots[id], u)
    ensures Extends(out, Create(roots, id, path, prefix, ancestors, out).out, PreOrder(u), [id] + TreeIds(u))
    decreases |roots.Keys - ancestors|, 0, 0
  {
    hide Step, Extends, PreOrder, TreeIds;
    assert roots.Keys - (ancestors + {id}) == (roots.Keys - ancestors) - {id};
    var started := out.(subtrees := out.subtrees + [SubtreeOut(id, path, [])]);
    u := StepUnfolds(roots, roots[id], |out.subtrees|, prefix, ancestors + {id}, started, 0);
    NewSubtreeExtends(out, id, path);
    ExtendsTrans(out, started, Create(roots, id, path, prefix, ancestors, out).out, [], [id], PreOrder(u), TreeIds(u));
    assert [] + PreOrder(u) == PreOrder(u);
  }

  lemma {:induction false} StepUnfolds(roots: Roots, e: Element, k: nat, prefix: string, ancestors: set<string>,
          out: Out, depth: nat)
    returns (u: Unfolding)
    requires k < |out.subtrees| && Step(roots, e, k, prefix, ancestors, out, depth).error.None?
    ensures IsUnfolding(roots, e, u)
    ensures Extends(out, Step(roots, e, k, prefix, ancestors, out, depth).out, PreOrder(u), TreeIds(u))
    decreases |roots.Keys - ancestors|, Weight(e), 1
  {
    hide Create, StepAll, Extends;
    var created := CreateNode(out, k, prefix, e);
    var end := Step(roots, e, k, prefix, ancestors, out, depth).out;
    CreateNodeExtends(out, k, prefix, e);
    if e.Node? {
      var kids := StepAllUnfolds(roots, e.children, k, prefix, ancestors, created, depth + 1);
      u := Plain(e.typeId, e.name, kids);
      ExtendsTrans(out, created, end, [e.typeId], [], PreOrderOf(kids), TreeIdsOf(kids));
      assert [] + TreeIdsOf(kids) == TreeIdsOf(kids);
    } else {
      var path := SubtreePath(created.subtrees[k].instanceName, e, created.uidCounter);
      var body := CreateUnfolds(roots, e.typeId, path, path + "/", ancestors, created);
      u := Sub(e.typeId, e.name, body);
      ExtendsTrans(out, created, end, [e.typeId], [], PreOrder(body), [e.typeId] + TreeIds(body));
      assert [] + ([e.typeId] + TreeIds(body)) == [e.typeId] + TreeIds(body);
    }
  }

  lemma {:induction false} StepAllUnfolds(roots: Roots, cs: seq<Element>, k: nat, prefix: string,
          ancestors: set<string>, out: Out,
                                          depth: nat) returns (us: seq<Unfolding>)
    requires k < |out.subtrees| && StepAll(roots, cs, k, prefix, ancestors, out, depth).error.None?
    ensures AreUnfoldings(roots, cs, us)
    ensures Extends(out, StepAll(roots, cs, k, prefix, ancestors, out, depth).out, PreOrderOf(us), TreeIdsOf(us))
    decreases |roots.Keys - ancestors|, WeightOf(cs), 2
  {
    hide Step, Extends, IsUnfolding, PreOrder, TreeIds;
    if cs == [] {
      us := [];
      ExtendsSelf(out);
    } else {
      var init := cs[..|cs| - 1];
      var before := StepAll(roots, init, k, prefix, ancestors, out, depth);
      var first := StepAllUnfolds(roots, init, k, prefix, ancestors, out, depth);
      var last := StepUnfolds(roots, cs[|cs| - 1], k, prefix, ancestors, before.out, depth);
      us := first + [last];
      assert us[..|us| - 1] == first;
      ExtendsTrans(out, before.out, StepAll(roots, cs, k, prefix, ancestors, out, depth).out,
                   PreOrderOf(first), TreeIdsOf(first), PreOrder(last), TreeIds(last));
    }
  }

  /** Without an error the nodes are those of the unfolding of the main tree, in pre-order, and the
      subtrees are those it refers to, in pre-order. */
  lemma InstantiateUnfolds(roots: Roots, mainTree: string) returns (u: Unfolding)
    requires Instantiate(roots, mainTree).error.None?
    ensures mainTree in roots && IsUnfolding(roots, roots[mainTree], u)
    ensures var out := Instantiate(roots, mainTree).out;
      Types(out.log) == PreOrder(u) && Ids(out.subtrees) == [mainTree] + TreeIds(u)
  {
    hide Create, PreOrder, TreeIds;
    u := CreateUnfolds(roots, mainTree, "", "", {}, EMPTY);
    assert Types(EMPTY.log) == [] && Ids(EMPTY.subtrees) == [];
    assert [] + PreOrder(u) == PreOrder(u);
    assert [] + ([mainTree] + TreeIds(u)) == [mainTree] + TreeIds(u);
  }

  /** A subtree holds the nodes of its tree, in pre-order. */
  predicate PlacedAt(roots: Roots, sub: SubtreeOut) {
    sub.treeId in roots && Types(sub.nodes) == Labels(roots[sub.treeId])
  }

  /** From out to t the k-th subtree, if there is one, has got these nodes, the other subtrees are as
      they were, and the new ones are complete. */
  predicate Placed(roots: Roots, out: Out, t: Out, k: nat, labels: seq<string>) {
    && |out.subtrees| <= |t.subtrees|
    && (forall i :: 0 <= i < |out.subtrees| && i != k ==> t.subtrees[i] == out.subtrees[i])
    && (k < |out.subtrees| ==>
          t.subtrees[k].treeId == out.subtrees[k].treeId
          && Types(t.subtrees[k].nodes) == Types(out.subtrees[k].nodes) + labels)
    && forall i :: |out.subtrees| <= i < |t.subtrees| ==> PlacedAt(roots, t.subtrees[i])
  }

  lemma PlacedTrans(roots: Roots, a: Out, b: Out, c: Out, k: nat, labels: seq<string>, labels': seq<string>)
    requires k < |a.subtrees| && Placed(roots, a, b, k, labels) && Placed(roots, b, c, k, labels')
    ensures Placed(roots, a, c, k, labels + labels')
  {
    hide PlacedAt, Types;
    assert Types(a.subtrees[k].nodes) + (labels + labels') == Types(a.subtrees[k].nodes) + labels + labels';
    forall i | |a.subtrees| <= i < |c.subtrees| ensures PlacedAt(roots, c.subtrees[i]) {
      if i < |b.subtrees| {
        assert c.subtrees[i] == b.subtrees[i];
      }
    }
  }

  lemma PlacedNothing(roots: Roots, out: Out, k: nat)
    ensures Placed(roots, out, out, k, [])
  {
  }

  lemma CreateNodePlaces(roots: Roots, out: Out, k: nat, prefix: string, e: Element)
    requires k < |out.subtrees|
    ensures Placed(roots, out, CreateNode(out, k, prefix, e), k, [e.typeId])
  {
  }

  /** When the new subtree is complete, it is one more new subtree. */
  lemma SubtreePlaced(roots: Roots, out: Out, id: string, path: string, t: Out, k: nat)
    requires id in roots
    requires Placed(roots, out.(subtrees := out.subtrees + [SubtreeOut(id, path, [])]), t, |out.subtrees|,
      Labels(roots[id]))
    ensures Placed(roots, out, t, k, [])
  {
    hide Labels;
    var started := out.(subtrees := out.subtrees + [SubtreeOut(id, path, [])]);
    assert Types([]) + Labels(roots[id]) == Labels(roots[id]);
    forall i | 0 <= i < |out.subtrees| ensures t.subtrees[i] == out.subtrees[i] {
      assert started.subtrees[i] == out.subtrees[i];
    }
    assert k < |out.subtrees| ==> Types(out.subtrees[k].nodes) + [] == Types(out.subtrees[k].nodes);
  }

  lemma {:induction false} CreatePlaces(roots: Roots, id: string, path: string, prefix: string,
          ancestors: set<string>, out: Out, k: nat)
    requires Create(roots, id, path, prefix, ancestors, out).error.None?
    ensures Placed(roots, out, Create(roots, id, path, prefix, ancestors, out).out, k, [])
    decreases |roots.Keys - ancestors|, 0, 0
  {
    hide Step, Placed;
    assert roots.Keys - (ancestors + {id}) == (roots.Keys - ancestors) - {id};
    var started := out.(subtrees := out.subtrees + [SubtreeOut(id, path, [])]);
    StepPlaces(roots, roots[id], |out.subtrees|, prefix, ancestors + {id}, started, 0);
    SubtreePlaced(roots, out, id, path, Create(roots, id, path, prefix, ancestors, out).out, k);
  }

  lemma {:induction false} StepPlaces(roots: Roots, e: Element, k: nat, prefix: string, ancestors: set<string>,
          out: Out, depth: nat)
    requires k < |out.subtrees| && Step(roots, e, k, prefix, ancestors, out, depth).error.None?
    ensures Placed(roots, out, Step(roots, e, k, prefix, ancestors, out, depth).out, k, Labels(e))
    decreases |roots.Keys - ancestors|, Weight(e), 1
  {
    hide Create, StepAll, Placed;
    var created := CreateNode(out, k, prefix, e);
    var end := Step(roots, e, k, prefix, ancestors, out, depth).out;
    CreateNodePlaces(roots, out, k, prefix, e);
    if e.Node? {
      StepAllPlaces(roots, e.children, k, prefix, ancestors, created, depth + 1);
      PlacedTrans(roots, out, created, end, k, [e.typeId], LabelsOf(e.children));
    } else {
      var path := SubtreePath(created.subtrees[k].instanceName, e, created.uidCounter);
      CreatePlaces(roots, e.typeId, path, path + "/", ancestors, created, k);
      PlacedTrans(roots, out, created, end, k, [e.typeId], []);
    }
  }

  lemma {:induction false} StepAllPlaces(roots: Roots, cs: seq<Element>, k: nat, prefix: string,
          ancestors: set<string>, out: Out,
                                         depth: nat)
    requires k < |out.subtrees| && StepAll(roots, cs, k, prefix, ancestors, out, depth).error.None?
    ensures Placed(roots, out, StepAll(roots, cs, k, prefix, ancestors, out, depth).out, k, LabelsOf(cs))
    decreases |roots.Keys - ancestors|, WeightOf(cs), 2
  {
    hide Step, Placed, Labels;
    if cs == [] {
      PlacedNothing(roots, out, k);
    } else {
      var init := cs[..|cs| - 1];
      var before := StepAll(roots, init, k, prefix, ancestors, out, depth);
      StepAllPlaces(roots, init, k, prefix, ancestors, out, depth);
      StepPlaces(roots, cs[|cs| - 1], k, prefix, ancestors, before.out, depth);
      PlacedTrans(roots, out, before.out, StepAll(roots, cs, k, prefix, ancestors, out, depth).out, k,
                  LabelsOf(init), Labels(cs[|cs| - 1]));
    }
  }

  /** Without an error every subtree holds exactly the nodes of the tree it was made from. */
  lemma InstantiatePlaces(roots: Roots, mainTree: string)
    requires Instantiate(roots, mainTree).error.None?
    ensures var out := Instantiate(roots, mainTree).out;
      forall i :: 0 <= i < |out.subtrees| ==> PlacedAt(roots, out.subtrees[i])
  {
    hide Create, PlacedAt;
    CreatePlaces(roots, mainTree, "", "", {}, EMPTY, 0);
  }

  // ---------------------------------------------------------------- automatic names

  /** No reference in the tree has a name of its own. */
  predicate AutoNamed(e: Element) {
    match e
    case SubTree(_, name, _) => name.None?
    case Node(_, _, children) => AllAutoNamed(children)
  }

  predicate AllAutoNamed(cs: seq<Element>) {
    cs == [] || (AllAutoNamed(cs[..|cs| - 1]) && AutoNamed(cs[|cs| - 1]))
  }

  predicate EndsInUid(name: string, parent: string, uid: nat) {
    name == parent + ":" + Digits(uid)
  }

  /** Every subtree but the first is named after a UID that was given. */
  ghost predicate NamedByUid(out: Out) {
    forall i :: 0 <= i < |out.subtrees| && out.subtrees[i].instanceName != "" ==>
      exists parent, uid: nat :: uid <= |out.log| && EndsInUid(out.subtrees[i].instanceName, parent, uid)
  }

  lemma AutoPath(parent: string, e: Element, uid: nat) returns (before: string)
    requires e.name.None?
    ensures SubtreePath(parent, e, uid) != "" && EndsInUid(SubtreePath(parent, e, uid), before, uid)
  {
    before := (if parent == "" then "" else parent + "/") + e.typeId + ":";
    assert SubtreePath(parent, e, uid) == before + ":" + Digits(uid);
  }

  /** Naming a subtree after the node just created gives a new name. */
  lemma FreshName(out: Out, k: nat, prefix: string, e: Element)
    requires k < |out.subtrees| && Numbered(out) && NamedByUid(out) && e.name.None? && |out.log| + 1 < UID_LIMIT
    ensures var created := CreateNode(out, k, prefix, e);
      !NameTaken(created, SubtreePath(created.subtrees[k].instanceName, e, created.uidCounter))
  {
    var created := CreateNode(out, k, prefix, e);
    assert created.uidCounter == |out.log| + 1;
    var path := SubtreePath(created.subtrees[k].instanceName, e, created.uidCounter);
    var before := AutoPath(created.subtrees[k].instanceName, e, created.uidCounter);
    hide SubtreePath;
    forall i | 0 <= i < |created.subtrees| ensures created.subtrees[i].instanceName != path {
      var name := out.subtrees[i].instanceName;
      assert created.subtrees[i].instanceName == name;
      if name == path {
        var parent, uid: nat :| uid <= |out.log| && EndsInUid(name, parent, uid);
        SameEnding(parent, before, Digits(uid), Digits(created.uidCounter));
        DigitsDiffer(uid, created.uidCounter);
      }
    }
  }

  lemma CreateNodeNames(out: Out, k: nat, prefix: string, e: Element)
    requires k < |out.subtrees| && NamedByUid(out)
    ensures NamedByUid(CreateNode(out, k, prefix, e))
  {
    var created := CreateNode(out, k, prefix, e);
    forall i | 0 <= i < |created.subtrees| && created.subtrees[i].instanceName != ""
      ensures exists parent, uid: nat ::
        uid <= |created.log| && EndsInUid(created.subtrees[i].instanceName, parent, uid)
    {
      var name := out.subtrees[i].instanceName;
      assert created.subtrees[i].instanceName == name;
      var parent, uid: nat :| uid <= |out.log| && EndsInUid(name, parent, uid);
      assert EndsInUid(created.subtrees[i].instanceName, parent, uid);
    }
  }

  /** As long as UIDs have not been used up there is no duplicate. */
  ghost predicate AutoFine(r: Outcome) {
    |r.out.log| < UID_LIMIT ==> r.error != Some(DUPLICATE) && NamedByUid(r.out) && Numbered(r.out)
  }

  ghost predicate AutoRoots(roots: Roots) {
    forall id :: id in roots ==> AutoNamed(roots[id])
  }

  lemma {:induction false} CreateAuto(roots: Roots, id: string, path: string, prefix: string, ancestors: set<string>,
          out: Out)
    requires AutoRoots(roots) && Numbered(out)
    requires NamedByUid(out.(subtrees := out.subtrees + [SubtreeOut(id, path, [])]))
    requires NamedByUid(out)
    ensures AutoFine(Create(roots, id, path, prefix, ancestors, out))
    ensures |out.log| <= |Create(roots, id, path, prefix, ancestors, out).out.log|
    decreases |roots.Keys - ancestors|, 0, 0
  {
    hide Step, NamedByUid;
    if id !in ancestors && id in roots {
      assert roots.Keys - (ancestors + {id}) == (roots.Keys - ancestors) - {id};
      StepAuto(roots, roots[id], |out.subtrees|, prefix, ancestors + {id},
               out.(subtrees := out.subtrees + [SubtreeOut(id, path, [])]), 0);
    }
  }

  lemma NewSubtreeNames(out: Out, id: string, path: string, before: string)
    requires NamedByUid(out) && EndsInUid(path, before, |out.log|)
    ensures NamedByUid(out.(subtrees := out.subtrees + [SubtreeOut(id, path, [])]))
  {
    var t := out.(subtrees := out.subtrees + [SubtreeOut(id, path, [])]);
    forall i | 0 <= i < |t.subtrees| && t.subtrees[i].instanceName != ""
      ensures exists parent, uid: nat :: uid <= |t.log| && EndsInUid(t.subtrees[i].instanceName, parent, uid)
    {
      if i < |out.subtrees| {
        assert t.subtrees[i] == out.subtrees[i];
      }
    }
  }

  lemma {:induction false} StepAuto(roots: Roots, e: Element, k: nat, prefix: string, ancestors: set<string>,
          out: Out, depth: nat)
    requires k < |out.subtrees| && AutoRoots(roots) && AutoNamed(e) && NamedByUid(out) && Numbered(out)
    ensures AutoFine(Step(roots, e, k, prefix, ancestors, out, depth))
    ensures |out.log| <= |Step(roots, e, k, prefix, ancestors, out, depth).out.log|
    decreases |roots.Keys - ancestors|, Weight(e), 1
  {
    hide Create, StepAll, NamedByUid, NameTaken, SubtreePath, Numbered, AutoRoots;
    if depth <= MAX_NESTING_DEPTH {
      CreateNodeNames(out, k, prefix, e);
      CreateNodeNumbers(out, k, prefix, e);
      var created := CreateNode(out, k, prefix, e);
      if e.Node? {
        StepAllAuto(roots, e.children, k, prefix, ancestors, created, depth + 1);
      } else {
        var parent := created.subtrees[k].instanceName;
        var path := SubtreePath(parent, e, created.uidCounter);
        if |created.log| < UID_LIMIT {
          FreshName(out, k, prefix, e);
          var before := AutoPath(parent, e, created.uidCounter);
          NewSubtreeNames(created, e.typeId, path, before);
          CreateAuto(roots, e.typeId, path, path + "/", ancestors, created);
        } else if !NameTaken(created, path) {
          LogGrows(roots, e.typeId, path, path + "/", ancestors, created);
        }
      }
    }
  }

  lemma CreateNodeNumbers(out: Out, k: nat, prefix: string, e: Element)
    requires k < |out.subtrees| && Numbered(out)
    ensures var created := CreateNode(out, k, prefix, e);
      && Numbered(created) && |created.log| == |out.log| + 1
      && (|created.log| < UID_LIMIT ==> created.uidCounter == |created.log|)
  {
  }

  lemma {:induction false} StepAllAuto(roots: Roots, cs: seq<Element>, k: nat, prefix: string,
          ancestors: set<string>, out: Out,
                                       depth: nat)
    requires k < |out.subtrees| && AutoRoots(roots) && AllAutoNamed(cs) && NamedByUid(out) && Numbered(out)
    ensures AutoFine(StepAll(roots, cs, k, prefix, ancestors, out, depth))
    ensures |out.log| <= |StepAll(roots, cs, k, prefix, ancestors, out, depth).out.log|
    decreases |roots.Keys - ancestors|, WeightOf(cs), 2
  {
    hide Step, NamedByUid, Numbered, AutoNamed, AutoRoots;
    if cs != [] {
      var before := StepAll(roots, cs[..|cs| - 1], k, prefix, ancestors, out, depth);
      StepAllAuto(roots, cs[..|cs| - 1], k, prefix, ancestors, out, depth);
      if before.error.None? {
        if |before.out.log| < UID_LIMIT {
          StepAuto(roots, cs[|cs| - 1], k, prefix, ancestors, before.out, depth);
        } else {
          StepGrows(roots, cs[|cs| - 1], k, prefix, ancestors, before.out, depth);
        }
      }
    }
  }

  lemma {:induction false} LogGrows(roots: Roots, id: string, path: string, prefix: string, ancestors: set<string>,
          out: Out)
    ensures |out.log| <= |Create(roots, id, path, prefix, ancestors, out).out.log|
    decreases |roots.Keys - ancestors|, 0, 0
  {
    hide Step;
    if id !in ancestors && id in roots {
      assert roots.Keys - (ancestors + {id}) == (roots.Keys - ancestors) - {id};
      StepGrows(roots, roots[id], |out.subtrees|, prefix, ancestors + {id},
                out.(subtrees := out.subtrees + [SubtreeOut(id, path, [])]), 0);
    }
  }

  lemma {:induction false} StepGrows(roots: Roots, e: Element, k: nat, prefix: string, ancestors: set<string>,
          out: Out, depth: nat)
    requires k < |out.subtrees|
    ensures |out.log| <= |Step(roots, e, k, prefix, ancestors, out, depth).out.log|
    decreases |roots.Keys - ancestors|, Weight(e), 1
  {
    hide Create, StepAll, NameTaken;
    if depth <= MAX_NESTING_DEPTH {
      var created := CreateNode(out, k, prefix, e);
      if e.Node? {
        StepAllGrows(roots, e.children, k, prefix, ancestors, created, depth + 1);
      } else {
        var path := SubtreePath(created.subtrees[k].instanceName, e, created.uidCounter);
        LogGrows(roots, e.typeId, path, path + "/", ancestors, created);
      }
    }
  }

  lemma {:induction false} StepAllGrows(roots: Roots, cs: seq<Element>, k: nat, prefix: string,
          ancestors: set<string>, out: Out,
                                        depth: nat)
    requires k < |out.subtrees|
    ensures |out.log| <= |StepAll(roots, cs, k, prefix, ancestors, out, depth).out.log|
    decreases |roots.Keys - ancestors|, WeightOf(cs), 2
  {
    hide Step;
    if cs != [] {
      var before := StepAll(roots, cs[..|cs| - 1], k, prefix, ancestors, out, depth);
      StepAllGrows(roots, cs[..|cs| - 1], k, prefix, ancestors, out, depth);
      if before.error.None? {
        StepGrows(roots, cs[|cs| - 1], k, prefix, ancestors, before.out, depth);
      }
    }
  }

  /** If no reference has a name of its own, subtree paths never clash, unless 65536 nodes were
      created: the generated names end in the UID, and that starts again. */
  lemma AutoNamesNeverClash(roots: Roots, mainTree: string)
    requires AutoRoots(roots)
    ensures var r := Instantiate(roots, mainTree);
      r.error == Some(DUPLICATE) ==> |r.out.log| >= UID_LIMIT
  {
    hide Create, AutoRoots;
    CreateAuto(roots, mainTree, "", "", {}, EMPTY);
  }

  // ---------------------------------------------------------------- no other errors

  /** How many nodes a tree unfolds into, if references to its ancestors are not followed. */
  function TreeSize(roots: Roots, id: string, ancestors: set<string>): nat
    decreases |roots.Keys - ancestors|, 0, 0
  {
    if id in ancestors || id !in roots then 0
    else
      assert roots.Keys - (ancestors + {id}) == (roots.Keys - ancestors) - {id};
      Size(roots, roots[id], ancestors + {id})
  }

  function Size(roots: Roots, e: Element, ancestors: set<string>): nat
    decreases |roots.Keys - ancestors|, Weight(e), 1
  {
    match e
    case Node(_, _, children) => 1 + SizeOf(roots, children, ancestors)
    case SubTree(typeId, _, _) => 1 + TreeSize(roots, typeId, ancestors)
  }

  function SizeOf(roots: Roots, cs: seq<Element>, ancestors: set<string>): nat
    decreases |roots.Keys - ancestors|, WeightOf(cs), 2
  {
    if cs == [] then 0
    else SizeOf(roots, cs[..|cs| - 1], ancestors) + Size(roots, cs[|cs| - 1], ancestors)
  }

  /** An element at the given depth, and all below it, respect the nesting limit. */
  predicate Shallow(e: Element, depth: nat) {
    depth <= MAX_NESTING_DEPTH && (e.Node? ==> AllShallow(e.children, depth + 1))
  }

  predicate AllShallow(cs: seq<Element>, depth: nat) {
    cs == [] || (AllShallow(cs[..|cs| - 1], depth) && Shallow(cs[|cs| - 1], depth))
  }

  /** Every reference is to a registered tree, no element is nested too deeply and no reference has
      a name of its own. */
  ghost predicate Sound(roots: Roots) {
    && (forall id, next :: id in roots && Refers(roots[id], next) ==> next in roots)
    && (forall id :: id in roots ==> Shallow(roots[id], 0))
    && AutoRoots(roots)
  }

  /** What an outcome adds to the log, and the errors it cannot have. */
  predicate Within(out: Out, r: Outcome, size: nat) {
    |r.out.log| <= |out.log| + size && r.error != Some(MISSING) && r.error != Some(TOO_DEEP)
  }

  lemma {:induction false} CreateSound(roots: Roots, id: string, path: string, prefix: string, ancestors: set<string>,
          out: Out)
    requires Sound(roots) && id in roots
    ensures Within(out, Create(roots, id, path, prefix, ancestors, out), TreeSize(roots, id, ancestors))
    decreases |roots.Keys - ancestors|, 0, 0
  {
    hide Step, Size;
    if id !in ancestors {
      assert roots.Keys - (ancestors + {id}) == (roots.Keys - ancestors) - {id};
      StepSound(roots, roots[id], |out.subtrees|, prefix, ancestors + {id},
                out.(subtrees := out.subtrees + [SubtreeOut(id, path, [])]), 0);
    }
  }

  lemma {:induction false} StepSound(roots: Roots, e: Element, k: nat, prefix: string, ancestors: set<string>,
          out: Out, depth: nat)
    requires k < |out.subtrees| && Sound(roots) && Shallow(e, depth) && forall next :: Refers(e, next) ==> next in roots
    ensures Within(out, Step(roots, e, k, prefix, ancestors, out, depth), Size(roots, e, ancestors))
    decreases |roots.Keys - ancestors|, Weight(e), 1
  {
    hide Create, StepAll, NameTaken, Sound, RefersOf, AllShallow, TreeSize, SizeOf;
    var created := CreateNode(out, k, prefix, e);
    if e.Node? {
      assert forall next :: RefersOf(e.children, next) ==> Refers(e, next);
      StepAllSound(roots, e.children, k, prefix, ancestors, created, depth + 1);
    } else {
      assert Refers(e, e.typeId);
      var path := SubtreePath(created.subtrees[k].instanceName, e, created.uidCounter);
      CreateSound(roots, e.typeId, path, path + "/", ancestors, created);
    }
  }

  lemma {:induction false} StepAllSound(roots: Roots, cs: seq<Element>, k: nat, prefix: string,
          ancestors: set<string>, out: Out, depth: nat)
    requires k < |out.subtrees| && Sound(roots) && AllShallow(cs, depth)
    requires forall next :: RefersOf(cs, next) ==> next in roots
    ensures Within(out, StepAll(roots, cs, k, prefix, ancestors, out, depth), SizeOf(roots, cs, ancestors))
    decreases |roots.Keys - ancestors|, WeightOf(cs), 2
  {
    hide Step, Sound, Refers, Shallow, Size;
    if cs != [] {
      var front, last := cs[..|cs| - 1], cs[|cs| - 1];
      assert forall next :: RefersOf(front, next) ==> RefersOf(cs, next);
      assert forall next :: Refers(last, next) ==> RefersOf(cs, next);
      var before := StepAll(roots, front, k, prefix, ancestors, out, depth);
      StepAllSound(roots, front, k, prefix, ancestors, out, depth);
      if before.error.None? {
        StepSound(roots, last, k, prefix, ancestors, before.out, depth);
      }
    }
  }

  lemma AllErrors(e: Error)
    ensures e == CYCLE || e == MISSING || e == TOO_DEEP || e == DUPLICATE
  {
  }

  /** Said of the input alone: of sound trees that unfold into fewer than 65536 nodes, instantiation
      fails exactly for those from which a cycle can be reached, and reports the cycle. */
  lemma CycleOfInput(roots: Roots, mainTree: string)
    requires Sound(roots) && mainTree in roots && TreeSize(roots, mainTree, {}) < UID_LIMIT
    ensures Instantiate(roots, mainTree).error == if ReachesCycle(roots, mainTree) then Some(CYCLE) else None
  {
    hide Create, Refers, ReachesCycle, TreeSize, Shallow, AutoNamed;
    CreateSound(roots, mainTree, "", "", {}, EMPTY);
    AutoNamesNeverClash(roots, mainTree);
    var error := Instantiate(roots, mainTree).error;
    AllErrors(if error.Some? then error.value else CYCLE);
    CycleExactly(roots, mainTree);
  }

  // ---------------------------------------------------------------- where they do clash

  const LEAF := Node("Leaf", None, [])
  const REFERENCE := SubTree("A", None, [])

  function Leaves(n: nat): seq<Element> {
    if n == 0 then [] else Leaves(n - 1) + [LEAF]
  }

  /** A main tree whose root has two references to the same tree, and n leaves between them. */
  function TwoReferences(n: nat): Roots {
    map["Main" := Node("Sequence", None, [REFERENCE] + Leaves(n) + [REFERENCE]), "A" := LEAF]
  }

  function Names(out: Out): seq<string> {
    seq(|out.subtrees|, i requires 0 <= i < |out.subtrees| => out.subtrees[i].instanceName)
  }

  lemma CreateNodeSpares(out: Out, k: nat, prefix: string, e: Element)
    requires k < |out.subtrees|
    ensures var created := CreateNode(out, k, prefix, e);
      Names(created) == Names(out) && created.uidCounter == (out.uidCounter + 1) % UID_LIMIT
  {
  }

  lemma LeafStep(roots: Roots, k: nat, prefix: string, ancestors: set<string>, out: Out, depth: nat)
    requires k < |out.subtrees| && depth <= MAX_NESTING_DEPTH
    ensures Step(roots, LEAF, k, prefix, ancestors, out, depth) == Outcome(CreateNode(out, k, prefix, LEAF), None)
  {
    hide CreateNode;
  }

  /** Leaves count up the UID, and that is all they do to the names. */
  lemma {:induction false} LeavesStep(roots: Roots, cs: seq<Element>, n: nat, k: nat, prefix: string,
          ancestors: set<string>, out: Out, depth: nat)
    requires k < |out.subtrees| && depth <= MAX_NESTING_DEPTH
    requires var before := StepAll(roots, cs, k, prefix, ancestors, out, depth);
      before.error.None? && before.out.uidCounter < UID_LIMIT
    ensures var before := StepAll(roots, cs, k, prefix, ancestors, out, depth);
      var after := StepAll(roots, cs + Leaves(n), k, prefix, ancestors, out, depth);
      && after.error.None? && Names(after.out) == Names(before.out)
      && after.out.uidCounter == (before.out.uidCounter + n) % UID_LIMIT
  {
    hide StepAll, Names;
    var before := StepAll(roots, cs, k, prefix, ancestors, out, depth).out;
    if n == 0 {
      assert cs + Leaves(n) == cs;
    } else {
      LeavesStep(roots, cs, n - 1, k, prefix, ancestors, out, depth);
      OneMoreLeaf(roots, cs + Leaves(n - 1), k, prefix, ancestors, out, depth);
      assert cs + Leaves(n) == cs + Leaves(n - 1) + [LEAF];
      Counting(before.uidCounter, n);
    }
  }

  lemma Counting(uid: nat, n: nat)
    requires n > 0
    ensures ((uid + (n - 1)) % UID_LIMIT + 1) % UID_LIMIT == (uid + n) % UID_LIMIT
  {
  }

  lemma OneMoreLeaf(roots: Roots, cs: seq<Element>, k: nat, prefix: string, ancestors: set<string>, out: Out,
          depth: nat)
    requires k < |out.subtrees| && depth <= MAX_NESTING_DEPTH
    requires StepAll(roots, cs, k, prefix, ancestors, out, depth).error.None?
    ensures var before := StepAll(roots, cs, k, prefix, ancestors, out, depth).out;
      var after := StepAll(roots, cs + [LEAF], k, prefix, ancestors, out, depth);
      && after.error.None? && Names(after.out) == Names(before)
      && after.out.uidCounter == (before.uidCounter + 1) % UID_LIMIT
  {
    hide Step, Names, CreateNode;
    var before := StepAll(roots, cs, k, prefix, ancestors, out, depth).out;
    assert (cs + [LEAF])[..|cs|] == cs;
    LeafStep(roots, k, prefix, ancestors, before, depth);
    CreateNodeSpares(before, k, prefix, LEAF);
  }

  /** A reference adds a name, unless that is taken. */
  lemma ReferenceStep(roots: Roots, k: nat, prefix: string, ancestors: set<string>, out: Out, depth: nat)
    requires k < |out.subtrees| && depth <= MAX_NESTING_DEPTH && out.subtrees[k].instanceName == ""
    requires "A" in roots && roots["A"] == LEAF && "A" !in ancestors
    ensures var r := Step(roots, REFERENCE, k, prefix, ancestors, out, depth);
      var uid := (out.uidCounter + 1) % UID_LIMIT;
      var path := "A::" + Digits(uid);
      if path in Names(out) then r.error == Some(DUPLICATE)
      else r.error == None && Names(r.out) == Names(out) + [path] && r.out.uidCounter == (uid + 1) % UID_LIMIT
  {
    var created := CreateNode(out, k, prefix, REFERENCE);
    CreateNodeSpares(out, k, prefix, REFERENCE);
    assert Names(created)[k] == Names(out)[k];
    var path := "A::" + Digits(created.uidCounter);
    assert SubtreePath("", REFERENCE, created.uidCounter) == path;
    TakenIsIn(created, path);
    hide CreateNode, NameTaken, SubtreePath, Names, Digits;
    if !NameTaken(created, path) {
      ReferenceCreates(roots, path, ancestors, created);
    }
  }

  lemma TakenIsIn(out: Out, path: string)
    ensures NameTaken(out, path) <==> path in Names(out)
  {
    if path in Names(out) {
      var i :| 0 <= i < |Names(out)| && Names(out)[i] == path;
      assert out.subtrees[i].instanceName == path;
    }
    if NameTaken(out, path) {
      var i :| 0 <= i < |out.subtrees| && out.subtrees[i].instanceName == path;
      assert Names(out)[i] == path;
    }
  }

  lemma ReferenceCreates(roots: Roots, path: string, ancestors: set<string>, out: Out)
    requires "A" in roots && roots["A"] == LEAF && "A" !in ancestors
    ensures var r := Create(roots, "A", path, path + "/", ancestors, out);
      && r.error == None && Names(r.out) == Names(out) + [path]
      && r.out.uidCounter == (out.uidCounter + 1) % UID_LIMIT
  {
    hide Step, CreateNode;
    var begun := out.(subtrees := out.subtrees + [SubtreeOut("A", path, [])]);
    LeafStep(roots, |out.subtrees|, path + "/", ancestors + {"A"}, begun, 0);
    CreateNodeSpares(begun, |out.subtrees|, path + "/", LEAF);
  }

  /** With two references to the same tree in one subtree, the names clash exactly if the nodes
      created from one to the other are a multiple of 65536. */
  lemma NamesClashExactly(n: nat)
    ensures Instantiate(TwoReferences(n), "Main").error == if (n + 2) % UID_LIMIT == 0 then Some(DUPLICATE) else None
  {
    hide StepAll, CreateNode, Digits;
    var roots := TwoReferences(n);
    var start := Out([SubtreeOut("Main", "", [])], 0, []);
    var root := roots["Main"];
    var out := CreateNode(start, 0, "", root);
    CreateNodeSpares(start, 0, "", root);
    assert Names(start) == [""];
    assert Names(out)[0] == "";
    assert EMPTY.subtrees + [SubtreeOut("Main", "", [])] == start.subtrees && {} + {"Main"} == {"Main"};
    assert Create(roots, "Main", "", "", {}, EMPTY) == Step(roots, root, 0, "", {"Main"}, start, 0);
    assert Step(roots, root, 0, "", {"Main"}, start, 0) == StepAll(roots, root.children, 0, "", {"Main"}, out, 1);
    ChildrenClash(roots, n, out);
  }

  lemma ChildrenClash(roots: Roots, n: nat, out: Out)
    requires "A" in roots && roots["A"] == LEAF && Names(out) == [""] && out.uidCounter == 1
    ensures StepAll(roots, [REFERENCE] + Leaves(n) + [REFERENCE], 0, "", {"Main"}, out, 1).error
         == if (n + 2) % UID_LIMIT == 0 then Some(DUPLICATE) else None
  {
    hide Step, CreateNode, Leaves;
    FirstReference(roots, out);
    var first := StepAll(roots, [REFERENCE], 0, "", {"Main"}, out, 1).out;
    LeavesStep(roots, [REFERENCE], n, 0, "", {"Main"}, out, 1);
    var cs := [REFERENCE] + Leaves(n) + [REFERENCE];
    assert cs[..|cs| - 1] == [REFERENCE] + Leaves(n);
    var before := StepAll(roots, [REFERENCE] + Leaves(n), 0, "", {"Main"}, out, 1).out;
    assert before.subtrees[0].instanceName == Names(before)[0] == "";
    ReferenceStep(roots, 0, "", {"Main"}, before, 1);
    SecondName(n, (before.uidCounter + 1) % UID_LIMIT);
  }

  lemma FirstReference(roots: Roots, out: Out)
    requires "A" in roots && roots["A"] == LEAF && Names(out) == [""] && out.uidCounter == 1
    ensures var r := StepAll(roots, [REFERENCE], 0, "", {"Main"}, out, 1);
      r.error == None && Names(r.out) == ["", "A::" + Digits(2)] && r.out.uidCounter == 3
  {
    hide Step, CreateNode, Digits;
    assert out.subtrees[0].instanceName == Names(out)[0] == "";
    ReferenceStep(roots, 0, "", {"Main"}, out, 1);
    assert [REFERENCE][..0] == [];
    assert [""] + ["A::" + Digits(2)] == ["", "A::" + Digits(2)];
  }

  lemma SecondName(n: nat, uid: nat)
    requires uid == ((3 + n) % UID_LIMIT + 1) % UID_LIMIT
    ensures "A::" + Digits(uid) in ["", "A::" + Digits(2)] <==> (n + 2) % UID_LIMIT == 0
  {
    hide Digits;
    assert uid == 2 <==> (n + 2) % UID_LIMIT == 0;
    if "A::" + Digits(uid) == "A::" + Digits(2) {
      assert ("A::" + Digits(uid))[3..] == Digits(uid) && ("A::" + Digits(2))[3..] == Digits(2);
      DigitsDiffer(uid, 2);
    }
  }

  // ---------------------------------------------------------------- paths of nodes

  /** No element of the tree has a name of its own. */
  predicate Unnamed(e: Element) {
    e.name.None? && (e.Node? ==> AllUnnamed(e.children))
  }

  predicate AllUnnamed(cs: seq<Element>) {
    cs == [] || (AllUnnamed(cs[..|cs| - 1]) && Unnamed(cs[|cs| - 1]))
  }

  ghost predicate UnnamedRoots(roots: Roots) {
    forall id :: id in roots ==> Unnamed(roots[id])
  }

  /** Every node's path ends in its UID. */
  ghost predicate PathsByUid(log: seq<NodeOut>) {
    forall i :: 0 <= i < |log| ==> NamedByOwnUid(log[i])
  }

  ghost predicate NamedByOwnUid(node: NodeOut) {
    exists before :: EndsInUid(node.path, before, node.uid)
  }

  lemma CreateNodePath(out: Out, k: nat, prefix: string, e: Element)
    requires k < |out.subtrees| && PathsByUid(out.log) && e.name.None?
    ensures PathsByUid(CreateNode(out, k, prefix, e).log)
  {
    var log := CreateNode(out, k, prefix, e).log;
    var node := log[|out.log|];
    assert node.path == prefix + e.typeId + "::" + Digits(node.uid);
    assert EndsInUid(node.path, prefix + e.typeId + ":", node.uid);
    assert NamedByOwnUid(node);
    assert log == out.log + [node];
  }

  lemma {:induction false} CreatePaths(roots: Roots, id: string, path: string, prefix: string,
          ancestors: set<string>, out: Out)
    requires UnnamedRoots(roots) && PathsByUid(out.log)
    ensures PathsByUid(Create(roots, id, path, prefix, ancestors, out).out.log)
    decreases |roots.Keys - ancestors|, 0, 0
  {
    hide Step;
    if id !in ancestors && id in roots {
      assert roots.Keys - (ancestors + {id}) == (roots.Keys - ancestors) - {id};
      StepPaths(roots, roots[id], |out.subtrees|, prefix, ancestors + {id},
                out.(subtrees := out.subtrees + [SubtreeOut(id, path, [])]), 0);
    }
  }

  lemma {:induction false} StepPaths(roots: Roots, e: Element, k: nat, prefix: string, ancestors: set<string>,
          out: Out, depth: nat)
    requires k < |out.subtrees| && UnnamedRoots(roots) && Unnamed(e) && PathsByUid(out.log)
    ensures PathsByUid(Step(roots, e, k, prefix, ancestors, out, depth).out.log)
    decreases |roots.Keys - ancestors|, Weight(e), 1
  {
    hide Create, StepAll, NameTaken, PathsByUid, UnnamedRoots;
    if depth <= MAX_NESTING_DEPTH {
      CreateNodePath(out, k, prefix, e);
      var created := CreateNode(out, k, prefix, e);
      if e.Node? {
        StepAllPaths(roots, e.children, k, prefix, ancestors, created, depth + 1);
      } else {
        var path := SubtreePath(created.subtrees[k].instanceName, e, created.uidCounter);
        CreatePaths(roots, e.typeId, path, path + "/", ancestors, created);
      }
    }
  }

  lemma {:induction false} StepAllPaths(roots: Roots, cs: seq<Element>, k: nat, prefix: string,
          ancestors: set<string>, out: Out,
                                        depth: nat)
    requires k < |out.subtrees| && UnnamedRoots(roots) && AllUnnamed(cs) && PathsByUid(out.log)
    ensures PathsByUid(StepAll(roots, cs, k, prefix, ancestors, out, depth).out.log)
    decreases |roots.Keys - ancestors|, WeightOf(cs), 2
  {
    hide Step, PathsByUid, UnnamedRoots, Unnamed;
    if cs != [] {
      var before := StepAll(roots, cs[..|cs| - 1], k, prefix, ancestors, out, depth);
      StepAllPaths(roots, cs[..|cs| - 1], k, prefix, ancestors, out, depth);
      if before.error.None? {
        StepPaths(roots, cs[|cs| - 1], k, prefix, ancestors, before.out, depth);
      }
    }
  }

  /** If no element has a name of its own, the full paths of the nodes are pairwise distinct, up to
      65535 nodes. */
  lemma NodePathsDistinct(roots: Roots, mainTree: string, i: nat, j: nat)
    requires UnnamedRoots(roots)
    requires var log := Instantiate(roots, mainTree).out.log; |log| < UID_LIMIT && i < j < |log|
    ensures var log := Instantiate(roots, mainTree).out.log; log[i].path != log[j].path
  {
    hide Create, UnnamedRoots;
    CreatePaths(roots, mainTree, "", "", {}, EMPTY);
    InstantiateBuildsWell(roots, mainTree);
    var log := Instantiate(roots, mainTree).out.log;
    if log[i].path == log[j].path {
      assert NamedByOwnUid(log[i]) && NamedByOwnUid(log[j]);
      var a :| EndsInUid(log[i].path, a, log[i].uid);
      var b :| EndsInUid(log[j].path, b, log[j].uid);
      SameEnding(a, b, Digits(log[i].uid), Digits(log[j].uid));
      DigitsDiffer(log[i].uid, log[j].uid);
    }
  }

  // ---------------------------------------------------------------- in place

  lemma {:induction false} ChildLighter(cs: seq<Element>, i: nat)
    requires i < |cs|
    ensures Weight(cs[i]) <= WeightOf(cs)
    decreases |cs|
  {
    if i < |cs| - 1 {
      ChildLighter(cs[..|cs| - 1], i);
    }
  }

  lemma OneMoreChild(roots: Roots, cs: seq<Element>, i: nat, k: nat, prefix: string, ancestors: set<string>,
          out: Out, before: Out,
                     depth: nat)
    requires i < |cs| && k < |out.subtrees|
    requires StepAll(roots, cs[..i], k, prefix, ancestors, out, depth) == Outcome(before, None)
    ensures k < |before.subtrees|
    ensures StepAll(roots, cs[..i + 1], k, prefix, ancestors, out, depth)
      == Step(roots, cs[i], k, prefix, ancestors, before, depth)
  {
    hide Step;
    assert cs[..i + 1][..i] == cs[..i];
  }

  lemma {:induction false} ErrorStays(roots: Roots, cs: seq<Element>, i: nat, k: nat, prefix: string,
          ancestors: set<string>, out: Out,
                                      depth: nat)
    requires i <= |cs| && k < |out.subtrees| && StepAll(roots, cs[..i], k, prefix, ancestors, out, depth).error.Some?
    ensures StepAll(roots, cs, k, prefix, ancestors, out, depth)
      == StepAll(roots, cs[..i], k, prefix, ancestors, out, depth)
    decreases |cs|
  {
    hide Step;
    if i < |cs| {
      assert cs[..|cs| - 1][..i] == cs[..i];
      ErrorStays(roots, cs[..|cs| - 1], i, k, prefix, ancestors, out, depth);
    } else {
      assert cs[..i] == cs;
    }
  }

  /** The tree object, with its counter. */
  class Tree {
    var subtrees: seq<SubtreeOut>
    var uidCounter: nat
    ghost var log: seq<NodeOut>

    constructor ()
      ensures Built() == EMPTY
    {
      subtrees := [];
      uidCounter := 0;
      log := [];
    }

    ghost function Built(): Out
      reads this
    {
      Out(subtrees, uidCounter, log)
    }

    method GetUID() returns (uid: nat)
      modifies this`uidCounter
      ensures uid == uidCounter == (old(uidCounter) + 1) % UID_LIMIT
    {
      uidCounter := (uidCounter + 1) % UID_LIMIT;
      uid := uidCounter;
    }

    method CreateNodeHere(k: nat, prefix: string, e: Element) returns (uid: nat)
      requires k < |subtrees|
      modifies this
      ensures Built() == CreateNode(old(Built()), k, prefix, e) && uid == uidCounter
    {
      var instanceName := OrElse(e.name, e.typeId);
      var path := prefix + instanceName;
      uid := GetUID();
      if e.typeId == instanceName {
        path := path + "::" + Digits(uid);
      } else {
        assert path == path + "";
      }
      assert path == prefix + instanceName + if instanceName == e.typeId then "::" + Digits(uid) else "";
      var node := NodeOut(uid, path, e.typeId);
      subtrees := subtrees[k := subtrees[k].(nodes := subtrees[k].nodes + [node])];
      log := log + [node];
    }

    method PathExists(path: string) returns (found: bool)
      ensures found <==> NameTaken(Built(), path)
    {
      found := false;
      for i := 0 to |subtrees|
        invariant found <==> exists j :: 0 <= j < i && subtrees[j].instanceName == path
      {
        if subtrees[i].instanceName == path {
          found := true;
        }
      }
    }

    /** recursivelyCreateSubtree. The ancestors are those of the caller when it returns; an
        exception leaves them behind. */
    method CreateSubtree(roots: Roots, id: string, path: string, prefix: string, ancestors: set<string>)
      returns (error: Option<Error>, after: set<string>)
      modifies this
      ensures Outcome(Built(), error) == Create(roots, id, path, prefix, ancestors, old(Built()))
      ensures error.None? ==> after == ancestors
      decreases |roots.Keys - ancestors|, 0, 0
    {
      hide Step;
      after := ancestors;
      if id in ancestors {
        return Some(CYCLE), after;
      }
      after := after + {id};
      if id !in roots {
        return Some(MISSING), after;
      }
      assert roots.Keys - after == (roots.Keys - ancestors) - {id};
      var k := |subtrees|;
      subtrees := subtrees + [SubtreeOut(id, path, [])];
      error, after := StepHere(roots, roots[id], k, prefix, after, 0);
      after := after - {id};
    }

    method StepHere(roots: Roots, e: Element, k: nat, prefix: string, ancestors: set<string>, depth: nat)
      returns (error: Option<Error>, after: set<string>)
      requires k < |subtrees|
      modifies this
      ensures Outcome(Built(), error) == Step(roots, e, k, prefix, ancestors, old(Built()), depth)
      ensures error.None? ==> after == ancestors
      decreases |roots.Keys - ancestors|, Weight(e), 1
    {
      hide Create, StepAll, NameTaken, SubtreePath;
      after := ancestors;
      if depth > MAX_NESTING_DEPTH {
        return Some(TOO_DEEP), after;
      }
      var uid := CreateNodeHere(k, prefix, e);
      if e.Node? {
        error, after := ChildrenHere(roots, e.children, k, prefix, after, depth + 1);
        return;
      }
      var path := SubtreePath(subtrees[k].instanceName, e, uid);
      var taken := PathExists(path);
      if taken {
        return Some(DUPLICATE), after;
      }
      error, after := CreateSubtree(roots, e.typeId, path, path + "/", after);
    }

    /** The loop over the child elements. */
    method ChildrenHere(roots: Roots, cs: seq<Element>, k: nat, prefix: string, ancestors: set<string>, depth: nat)
      returns (error: Option<Error>, after: set<string>)
      requires k < |subtrees|
      modifies this
      ensures Outcome(Built(), error) == StepAll(roots, cs, k, prefix, ancestors, old(Built()), depth)
      ensures error.None? ==> after == ancestors
      decreases |roots.Keys - ancestors|, WeightOf(cs), 2
    {
      hide Step, StepAll;
      after := ancestors;
      ghost var start := Built();
      NoChildren(roots, cs, k, prefix, ancestors, start, depth);
      for i := 0 to |cs|
        invariant after == ancestors && k < |subtrees| && k < |start.subtrees|
        invariant Outcome(Built(), None) == StepAll(roots, cs[..i], k, prefix, ancestors, start, depth)
      {
        ghost var before := Built();
        ChildLighter(cs, i);
        error, after := StepHere(roots, cs[i], k, prefix, after, depth);
        OneMoreChild(roots, cs, i, k, prefix, ancestors, start, before, depth);
        if error.Some? {
          ErrorStays(roots, cs, i + 1, k, prefix, ancestors, start, depth);
          return;
        }
      }
      assert cs[..|cs|] == cs;
      return None, after;
    }
  }

  lemma NoChildren(roots: Roots, cs: seq<Element>, k: nat, prefix: string, ancestors: set<string>, out: Out, depth: nat)
    requires k < |out.subtrees|
    ensures StepAll(roots, cs[..0], k, prefix, ancestors, out, depth) == Outcome(out, None)
  {
  }
}

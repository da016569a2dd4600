/** What instantiation builds, read off the unfolding of the main tree: its nodes with their UIDs
    and paths, its subtrees with their names; and exactly when it succeeds. */
module SubtreeListing {

  import opened Subtrees
  import NumberText

  // ---------------------------------------------------------------- what should be built

  /** Names along a path. */
  function Joined(names: seq<string>): string {
    if names == [] then ""
    else if |names| == 1 then names[0]
    else Joined(names[..|names| - 1]) + "/" + names[|names| - 1]
  }

  function Numbered(typeId: string, uid: nat): string {
    typeId + "::" + Digits(uid % 0x1_0000)
  }

  /** What a node is called: by its own name, if that says more than its type. */
  function NodeLabel(u: Unfolding, uid: nat): string {
    if u.name.Some? && u.name.value != u.typeId then u.name.value else Numbered(u.typeId, uid)
  }

  /** What the nodes of a subtree have before their own names: the name of the reference, if it has one. */
  function ScopeLabel(u: Unfolding, uid: nat): string {
    if u.name.Some? then u.name.value else Numbered(u.typeId, uid)
  }

  /** The nodes of an unfolding in pre-order; uid is the number of the first. */
  function NodesAt(u: Unfolding, scope: seq<string>, uid: nat): seq<NodeOut> {
    [NodeOut(uid % 0x1_0000, Joined(scope + [NodeLabel(u, uid)]), u.typeId)] +
    match u
    case Plain(_, _, kids) => NodesOf(kids, scope, uid + 1)
    case Sub(_, _, body) => NodesAt(body, scope + [ScopeLabel(u, uid)], uid + 1)
  }

  function NodesOf(us: seq<Unfolding>, scope: seq<string>, uid: nat): seq<NodeOut> {
    if us == [] then []
    else
      var front := NodesOf(us[..|us| - 1], scope, uid);
      front + NodesAt(us[|us| - 1], scope, uid + |front|)
  }

  /** The names of the subtrees that are referred to, in pre-order. */
  function ScopesAt(u: Unfolding, scope: seq<string>, uid: nat): seq<string> {
    match u
    case Plain(_, _, kids) => ScopesOf(kids, scope, uid + 1)
    case Sub(_, _, body) =>
      var inner := scope + [ScopeLabel(u, uid)];
      [Joined(inner)] + ScopesAt(body, inner, uid + 1)
  }

  function ScopesOf(us: seq<Unfolding>, scope: seq<string>, uid: nat): seq<string> {
    if us == [] then []
    else
      ScopesOf(us[..|us| - 1], scope, uid)
      + ScopesAt(us[|us| - 1], scope, uid + |NodesOf(us[..|us| - 1], scope, uid)|)
  }

  /** No node lies deeper in its own tree than the 256th level below the root. */
  predicate NestedWithin(u: Unfolding, depth: nat) {
    depth <= 256 &&
    match u
    case Plain(_, _, kids) => AllNestedWithin(kids, depth + 1)
    case Sub(_, _, body) => NestedWithin(body, 0)
  }

  predicate AllNestedWithin(us: seq<Unfolding>, depth: nat) {
    us == [] || (AllNestedWithin(us[..|us| - 1], depth) && NestedWithin(us[|us| - 1], depth))
  }

  predicate Distinct(names: seq<string>) {
    forall i, j :: 0 <= i < j < |names| ==> names[i] != names[j]
  }

  // ---------------------------------------------------------------- unfoldings are unique

  lemma {:induction false} SameUnfolding(roots: Roots, e: Element, u: Unfolding, v: Unfolding)
    requires IsUnfolding(roots, e, u) && IsUnfolding(roots, e, v)
    ensures u == v
    decreases u
  {
    if e.Node? {
      SameUnfoldings(roots, e.children, u.kids, v.kids);
    } else {
      SameUnfolding(roots, roots[e.typeId], u.body, v.body);
    }
  }

  lemma {:induction false} SameUnfoldings(roots: Roots, cs: seq<Element>, us: seq<Unfolding>, vs: seq<Unfolding>)
    requires AreUnfoldings(roots, cs, us) && AreUnfoldings(roots, cs, vs)
    ensures us == vs
    decreases us
  {
    if us != [] {
      SameUnfoldings(roots, cs[..|cs| - 1], us[..|us| - 1], vs[..|vs| - 1]);
      SameUnfolding(roots, cs[|cs| - 1], us[|us| - 1], vs[|vs| - 1]);
      assert us == us[..|us| - 1] + [us[|us| - 1]] && vs == vs[..|vs| - 1] + [vs[|vs| - 1]];
    }
  }

  function Height(u: Unfolding): nat {
    match u
    case Plain(_, _, kids) => 1 + HeightOf(kids)
    case Sub(_, _, body) => 1 + Height(body)
  }

  function HeightOf(us: seq<Unfolding>): nat {
    if us == [] then 0 else HeightOf(us[..|us| - 1]) + Height(us[|us| - 1])
  }

  /** The tree unfolds into something at least that high. */
  ghost predicate Higher(roots: Roots, id: string, h: nat) {
    id in roots && exists w :: IsUnfolding(roots, roots[id], w) && h <= Height(w)
  }

  ghost predicate AllHigher(roots: Roots, ancestors: set<string>, h: nat) {
    forall a :: a in ancestors ==> Higher(roots, a, h)
  }

  /** What unfolds and is lower than all its ancestors is none of them. */
  lemma NoAncestor(roots: Roots, id: string, u: Unfolding, ancestors: set<string>)
    requires id in roots && IsUnfolding(roots, roots[id], u) && AllHigher(roots, ancestors, Height(u) + 1)
    ensures id !in ancestors
  {
    if id in ancestors {
      assert Higher(roots, id, Height(u) + 1);
      var w :| IsUnfolding(roots, roots[id], w) && Height(u) + 1 <= Height(w);
      SameUnfolding(roots, roots[id], u, w);
      assert false;
    }
  }

  lemma OneMoreHigher(roots: Roots, id: string, u: Unfolding, ancestors: set<string>)
    requires id in roots && IsUnfolding(roots, roots[id], u) && AllHigher(roots, ancestors, Height(u) + 1)
    ensures AllHigher(roots, ancestors + {id}, Height(u))
  {
    hide IsUnfolding, Height;
    LowerHigher(roots, ancestors, Height(u) + 1, Height(u));
    assert Higher(roots, id, Height(u));
  }

  lemma LowerHigher(roots: Roots, ancestors: set<string>, h: nat, lower: nat)
    requires AllHigher(roots, ancestors, h) && lower <= h
    ensures AllHigher(roots, ancestors, lower)
  {
    hide IsUnfolding, Height;
    forall a | a in ancestors ensures Higher(roots, a, lower) {
      assert Higher(roots, a, h);
    }
  }

  // ---------------------------------------------------------------- the state on the way

  function Names(out: Out): seq<string> {
    seq(|out.subtrees|, i requires 0 <= i < |out.subtrees| => out.subtrees[i].instanceName)
  }

  /** Subtree k is the one with this scope; the first one has no name, and no other has none. */
  ghost predicate Ready(out: Out, k: nat, scope: seq<string>) {
    && k < |out.subtrees|
    && Names(out)[k] == Joined(scope)
    && (scope != [] ==> Joined(scope) != "")
    && Names(out)[0] == ""
    && out.uidCounter == |out.log| % 0x1_0000
  }

  lemma ReadyMeans(out: Out, k: nat, scope: seq<string>)
    requires Ready(out, k, scope)
    ensures k < |out.subtrees| && out.uidCounter == |out.log| % 0x1_0000
  {
  }

  function Prefix(scope: seq<string>): string {
    if scope == [] then "" else Joined(scope) + "/"
  }

  predicate Listed(out: Out, t: Out, nodes: seq<NodeOut>, names: seq<string>) {
    t.log == out.log + nodes && Names(t) == Names(out) + names && t.uidCounter == |t.log| % 0x1_0000
  }

  lemma JoinedOn(scope: seq<string>, part: string)
    ensures Joined(scope + [part]) == Prefix(scope) + part
  {
    var names := scope + [part];
    assert names[..|names| - 1] == scope;
  }

  lemma StaysReady(out: Out, t: Out, k: nat, scope: seq<string>, nodes: seq<NodeOut>, names: seq<string>)
    requires Ready(out, k, scope) && Listed(out, t, nodes, names)
    ensures Ready(t, k, scope)
  {
    assert Names(t)[k] == Names(out)[k] && Names(t)[0] == Names(out)[0];
  }

  lemma ListedTrans(a: Out, b: Out, c: Out, nodes: seq<NodeOut>, names: seq<string>, nodes': seq<NodeOut>,
                    names': seq<string>)
    requires Listed(a, b, nodes, names) && Listed(b, c, nodes', names')
    ensures Listed(a, c, nodes + nodes', names + names')
  {
    hide Names;
    assert a.log + nodes + nodes' == a.log + (nodes + nodes');
    assert Names(a) + names + names' == Names(a) + (names + names');
  }

  lemma NodeListed(out: Out, k: nat, scope: seq<string>, e: Element, u: Unfolding)
    requires Ready(out, k, scope) && u.typeId == e.typeId && u.name == e.name
    ensures var uid := |out.log| + 1;
      Listed(out, CreateNode(out, k, Prefix(scope), e),
             [NodeOut(uid % 0x1_0000, Joined(scope + [NodeLabel(u, uid)]), u.typeId)], [])
  {
    hide Joined, Digits, Prefix, NodeLabel;
    NodeAdded(out, k, Prefix(scope), e);
    NodePath(e, u, scope, |out.log| + 1);
  }

  lemma NodeAdded(out: Out, k: nat, prefix: string, e: Element)
    requires k < |out.subtrees| && out.uidCounter == |out.log| % 0x1_0000
    ensures var uid := (|out.log| + 1) % 0x1_0000;
      Listed(out, CreateNode(out, k, prefix, e), [NodeOut(uid, PathOf(prefix, e, uid), e.typeId)], [])
  {
    hide Digits, OrElse;
    var t := CreateNode(out, k, prefix, e);
    var uid := (|out.log| + 1) % 0x1_0000;
    assert t.uidCounter == uid;
    assert t.log == out.log + [NodeOut(uid, PathOf(prefix, e, uid), e.typeId)];
    assert Names(t) == Names(out);
    assert Names(out) + [] == Names(out);
  }

  function PathOf(prefix: string, e: Element, uid: nat): string {
    prefix + OrElse(e.name, e.typeId) + if OrElse(e.name, e.typeId) == e.typeId then "::" + Digits(uid) else ""
  }

  lemma NodePath(e: Element, u: Unfolding, scope: seq<string>, uid: nat)
    requires u.typeId == e.typeId && u.name == e.name
    ensures PathOf(Prefix(scope), e, uid % 0x1_0000) == Joined(scope + [NodeLabel(u, uid)])
  {
    JoinedOn(scope, NodeLabel(u, uid));
    hide Joined, Digits, Prefix;
    var prefix, name, digits := Prefix(scope), OrElse(e.name, e.typeId), Digits(uid % 0x1_0000);
    if name == e.typeId {
      assert prefix + name + ("::" + digits) == prefix + (name + "::" + digits);
    } else {
      assert prefix + name + "" == prefix + name;
    }
  }

  lemma PathIsScope(out: Out, k: nat, scope: seq<string>, e: Element, u: Unfolding, uid: nat)
    requires Ready(out, k, scope) && u.typeId == e.typeId && u.name == e.name
    ensures SubtreePath(out.subtrees[k].instanceName, e, uid % 0x1_0000) == Joined(scope + [ScopeLabel(u, uid)])
  {
    JoinedOn(scope, ScopeLabel(u, uid));
    assert Joined([]) == "";
    hide Digits, Joined;
    assert Names(out)[k] == out.subtrees[k].instanceName == Joined(scope);
    if scope == [] {
      assert Prefix(scope) == "";
    } else {
      assert Joined(scope) + "/" == Prefix(scope);
    }
  }

  lemma TakenIsListed(out: Out, path: string)
    ensures NameTaken(out, path) <==> path in Names(out)
  {
    if NameTaken(out, path) {
      var i :| 0 <= i < |out.subtrees| && out.subtrees[i].instanceName == path;
      assert Names(out)[i] == path;
    }
  }

  lemma DistinctOn(names: seq<string>, name: string)
    requires Distinct(names)
    ensures Distinct(names + [name]) <==> name !in names
  {
    var all := names + [name];
    if name in names {
      var i :| 0 <= i < |names| && names[i] == name;
      assert all[i] == all[|names|];
    }
  }

  lemma DistinctFront(names: seq<string>, more: seq<string>)
    requires Distinct(names + more)
    ensures Distinct(names)
  {
    forall i, j | 0 <= i < j < |names| ensures names[i] != names[j] {
      assert (names + more)[i] == names[i] && (names + more)[j] == names[j];
    }
  }

  // ---------------------------------------------------------------- step by step

  /** What comes of instantiating something that should be listed so. */
  predicate Comes(out: Out, r: Outcome, nodes: seq<NodeOut>, names: seq<string>, nested: bool) {
    && (r.error.None? <==> nested && Distinct(Names(out) + names))
    && (r.error.None? ==> Listed(out, r.out, nodes, names))
  }

  lemma {:induction false} StepLists(roots: Roots, e: Element, u: Unfolding, k: nat, scope: seq<string>,
                                     ancestors: set<string>, out: Out, depth: nat)
    requires Ready(out, k, scope) && Distinct(Names(out)) && IsUnfolding(roots, e, u)
    requires AllHigher(roots, ancestors, Height(u))
    ensures Comes(out, Step(roots, e, k, Prefix(scope), ancestors, out, depth), NodesAt(u, scope, |out.log| + 1),
                  ScopesAt(u, scope, |out.log| + 1), NestedWithin(u, depth))
    decreases u
  {
    hide Ready, Distinct, Names, Create, StepAll, AllHigher;
    hide Listed, Joined, NodeLabel, ScopeLabel, CreateNode, SubtreePath;
    hide NameTaken, NodesOf, ScopesOf, AllNestedWithin, HeightOf, AreUnfoldings, Comes;
    if depth <= 256 {
      var uid := |out.log| + 1;
      ReadyMeans(out, k, scope);
      var created := CreateNode(out, k, Prefix(scope), e);
      var node := NodeOut(uid % 0x1_0000, Joined(scope + [NodeLabel(u, uid)]), u.typeId);
      NodeListed(out, k, scope, e, u);
      StaysReady(out, created, k, scope, [node], []);
      Counted(out, created, node);
      if e.Node? {
        LowerHigher(roots, ancestors, Height(u), HeightOf(u.kids));
        StepAllLists(roots, e.children, u.kids, k, scope, ancestors, created, depth + 1);
        ComesAfter(out, created, StepAll(roots, e.children, k, Prefix(scope), ancestors, created, depth + 1),
                   [node], NodesOf(u.kids, scope, uid + 1), ScopesOf(u.kids, scope, uid + 1),
                   AllNestedWithin(u.kids, depth + 1));
      } else {
        PathIsScope(created, k, scope, e, u, uid);
        LowerHigher(roots, ancestors, Height(u), Height(u.body) + 1);
        ReferenceLists(roots, e, u, k, scope, ancestors, created);
        var path := Joined(scope + [ScopeLabel(u, uid)]);
        assert SubtreePath(created.subtrees[k].instanceName, e, created.uidCounter) == path;
        var r := if NameTaken(created, path) then Outcome(created, Some(DUPLICATE))
                 else Create(roots, e.typeId, path, path + "/", ancestors, created);
        ComesAfter(out, created, r, [node], NodesAt(u.body, scope + [ScopeLabel(u, uid)], uid + 1),
                   ScopesAt(u, scope, uid), NestedWithin(u.body, 0));
      }
    } else {
      TooDeep(out, NodesAt(u, scope, |out.log| + 1), ScopesAt(u, scope, |out.log| + 1));
    }
  }

  lemma TooDeep(out: Out, nodes: seq<NodeOut>, names: seq<string>)
    ensures Comes(out, Outcome(out, Some(TOO_DEEP)), nodes, names, false)
  {
  }

  lemma Counted(out: Out, t: Out, node: NodeOut)
    requires Listed(out, t, [node], [])
    ensures |t.log| == |out.log| + 1 && t.uidCounter == (|out.log| + 1) % 0x1_0000 && Names(t) == Names(out)
  {
  }

  lemma ComesAfter(out: Out, t: Out, r: Outcome, first: seq<NodeOut>, nodes: seq<NodeOut>, names: seq<string>,
                   nested: bool)
    requires Listed(out, t, first, []) && Comes(t, r, nodes, names, nested)
    ensures Comes(out, r, first + nodes, names, nested)
  {
    hide Names, Distinct;
    assert Names(t) == Names(out) by { assert Names(out) + [] == Names(out); }
    if r.error.None? {
      ListedTrans(out, t, r.out, first, [], nodes, names);
      assert [] + names == names;
    }
  }

  lemma Unfolds(roots: Roots, e: Element, u: Unfolding)
    requires e.SubTree? && IsUnfolding(roots, e, u)
    ensures u.Sub? && u.typeId == e.typeId && u.name == e.name
    ensures e.typeId in roots && IsUnfolding(roots, roots[e.typeId], u.body)
  {
  }

  lemma Clashes(created: Out, path: string, nodes: seq<NodeOut>, names: seq<string>, nested: bool)
    requires path in Names(created)
    ensures Comes(created, Outcome(created, Some(DUPLICATE)), nodes, [path] + names, nested)
  {
    var all := Names(created) + ([path] + names);
    var i :| 0 <= i < |Names(created)| && Names(created)[i] == path;
    assert all[i] == all[|Names(created)|];
  }

  lemma Starts(created: Out, k: nat, scope: seq<string>, id: string, inner: seq<string>)
    requires Ready(created, k, scope) && inner != [] && Joined(inner) !in Names(created)
    ensures var started := created.(subtrees := created.subtrees + [SubtreeOut(id, Joined(inner), [])]);
      Ready(started, |created.subtrees|, inner) && Names(started) == Names(created) + [Joined(inner)]
  {
    hide Joined;
    assert Names(created)[0] in Names(created);
  }

  lemma ComesBehind(created: Out, started: Out, r: Outcome, path: string, nodes: seq<NodeOut>, names: seq<string>,
                    nested: bool)
    requires Comes(started, r, nodes, names, nested)
    requires Names(started) == Names(created) + [path] && started.log == created.log
    ensures Comes(created, r, nodes, [path] + names, nested)
  {
    hide Names, Distinct;
    assert Names(created) + [path] + names == Names(created) + ([path] + names);
  }

  /** A reference, behind its node. */
  lemma {:induction false} ReferenceLists(roots: Roots, e: Element, u: Unfolding, k: nat, scope: seq<string>,
                                          ancestors: set<string>, created: Out)
    requires Ready(created, k, scope) && Distinct(Names(created)) && e.SubTree? && IsUnfolding(roots, e, u)
    requires u.Sub? && AllHigher(roots, ancestors, Height(u.body) + 1)
    ensures var uid := |created.log|; var inner := scope + [ScopeLabel(u, uid)]; var path := Joined(inner);
      Comes(created,
            if NameTaken(created, path) then Outcome(created, Some(DUPLICATE))
            else Create(roots, e.typeId, path, path + "/", ancestors, created),
            NodesAt(u.body, inner, uid + 1), [path] + ScopesAt(u.body, inner, uid + 1), NestedWithin(u.body, 0))
    decreases u, 0
  {
    hide Ready, Distinct, Names, Step, AllHigher, Listed;
    hide Joined, ScopeLabel, NameTaken, NodesAt, ScopesAt, NestedWithin, IsUnfolding, Comes;
    var uid := |created.log|;
    var inner := scope + [ScopeLabel(u, uid)];
    var path := Joined(inner);
    Unfolds(roots, e, u);
    TakenIsListed(created, path);
    DistinctOn(Names(created), path);
    if NameTaken(created, path) {
      Clashes(created, path, NodesAt(u.body, inner, uid + 1), ScopesAt(u.body, inner, uid + 1),
              NestedWithin(u.body, 0));
    } else {
      NoAncestor(roots, e.typeId, u.body, ancestors);
      OneMoreHigher(roots, e.typeId, u.body, ancestors);
      var started := created.(subtrees := created.subtrees + [SubtreeOut(e.typeId, path, [])]);
      Starts(created, k, scope, e.typeId, inner);
      StepLists(roots, roots[e.typeId], u.body, |created.subtrees|, inner, ancestors + {e.typeId}, started, 0);
      ComesBehind(created, started,
                  Step(roots, roots[e.typeId], |created.subtrees|, path + "/", ancestors + {e.typeId}, started, 0),
                  path, NodesAt(u.body, inner, uid + 1), ScopesAt(u.body, inner, uid + 1), NestedWithin(u.body, 0));
    }
  }

  lemma ComesNothing(out: Out)
    requires Distinct(Names(out)) && out.uidCounter == |out.log| % 0x1_0000
    ensures Comes(out, Outcome(out, None), [], [], true)
  {
    assert Names(out) + [] == Names(out);
  }

  /** If something fails, so does the whole. */
  lemma FailureStays(out: Out, r: Outcome, nodes: seq<NodeOut>, names: seq<string>, nested: bool,
                     nodes': seq<NodeOut>, names': seq<string>, nested': bool)
    requires Comes(out, r, nodes, names, nested) && r.error.Some?
    ensures Comes(out, r, nodes + nodes', names + names', nested && nested')
  {
    hide Names;
    if Distinct(Names(out) + (names + names')) {
      assert Names(out) + (names + names') == Names(out) + names + names';
      DistinctFront(Names(out) + names, names');
    }
  }

  lemma ComesOn(out: Out, t: Out, r: Outcome, nodes: seq<NodeOut>, names: seq<string>, nodes': seq<NodeOut>,
                names': seq<string>, nested: bool)
    requires Listed(out, t, nodes, names) && Comes(t, r, nodes', names', nested)
    ensures Comes(out, r, nodes + nodes', names + names', nested)
  {
    hide Names, Distinct;
    assert Names(out) + names + names' == Names(out) + (names + names');
    if r.error.None? {
      ListedTrans(out, t, r.out, nodes, names, nodes', names');
    }
  }

  lemma {:induction false} StepAllLists(roots: Roots, cs: seq<Element>, us: seq<Unfolding>, k: nat, scope: seq<string>,
                                        ancestors: set<string>, out: Out, depth: nat)
    requires Ready(out, k, scope) && Distinct(Names(out)) && AreUnfoldings(roots, cs, us)
    requires AllHigher(roots, ancestors, HeightOf(us))
    ensures Comes(out, StepAll(roots, cs, k, Prefix(scope), ancestors, out, depth), NodesOf(us, scope, |out.log| + 1),
                  ScopesOf(us, scope, |out.log| + 1), AllNestedWithin(us, depth))
    decreases us
  {
    hide Ready, Distinct, Names, Step, AllHigher, Listed;
    hide Joined, IsUnfolding, NodesAt, ScopesAt, NestedWithin, Height, Comes;
    ReadyMeans(out, k, scope);
    if us == [] {
      ComesNothing(out);
    } else {
      var front, last := us[..|us| - 1], us[|us| - 1];
      var before := StepAll(roots, cs[..|cs| - 1], k, Prefix(scope), ancestors, out, depth);
      var nodes, names := NodesOf(front, scope, |out.log| + 1), ScopesOf(front, scope, |out.log| + 1);
      var uid := |out.log| + 1 + |nodes|;
      LowerHigher(roots, ancestors, HeightOf(us), HeightOf(front));
      StepAllLists(roots, cs[..|cs| - 1], front, k, scope, ancestors, out, depth);
      if before.error.Some? {
        FailureStays(out, before, nodes, names, AllNestedWithin(front, depth), NodesAt(last, scope, uid),
                     ScopesAt(last, scope, uid), NestedWithin(last, depth));
      } else {
        WentWell(out, before, nodes, names, AllNestedWithin(front, depth));
        StaysReady(out, before.out, k, scope, nodes, names);
        LowerHigher(roots, ancestors, HeightOf(us), Height(last));
        StepLists(roots, cs[|cs| - 1], last, k, scope, ancestors, before.out, depth);
        ComesOn(out, before.out, Step(roots, cs[|cs| - 1], k, Prefix(scope), ancestors, before.out, depth),
                nodes, names, NodesAt(last, scope, uid), ScopesAt(last, scope, uid), NestedWithin(last, depth));
      }
    }
  }

  lemma WentWell(out: Out, r: Outcome, nodes: seq<NodeOut>, names: seq<string>, nested: bool)
    requires Comes(out, r, nodes, names, nested) && r.error.None?
    ensures nested && Listed(out, r.out, nodes, names) && Distinct(Names(r.out))
    ensures |r.out.log| == |out.log| + |nodes|
  {
    hide Names, Distinct;
  }

  // ---------------------------------------------------------------- the whole

  /** Instantiation succeeds if and only if the main tree can be unfolded, no element lies deeper in
      its tree than the 256th level below the root, and the names of the subtrees that result are
      pairwise distinct and not empty. */
  lemma SucceedsExactly(roots: Roots, mainTree: string)
    ensures Instantiate(roots, mainTree).error.None? <==>
      mainTree in roots
      && exists u ::
           IsUnfolding(roots, roots[mainTree], u) && NestedWithin(u, 0) && Distinct([""] + ScopesAt(u, [], 1))
  {
    hide Create, IsUnfolding, NestedWithin, Distinct, ScopesAt, NodesAt;
    if Instantiate(roots, mainTree).error.None? {
      var u := InstantiateUnfolds(roots, mainTree);
      InstantiateLists(roots, mainTree, u);
    }
    if mainTree in roots {
      forall u | IsUnfolding(roots, roots[mainTree], u) && NestedWithin(u, 0) && Distinct([""] + ScopesAt(u, [], 1))
        ensures Instantiate(roots, mainTree).error.None?
      {
        InstantiateLists(roots, mainTree, u);
      }
    }
  }

  /** And then it has built the nodes and subtrees that the unfolding lists, with these UIDs, paths
      and names. */
  lemma InstantiateLists(roots: Roots, mainTree: string, u: Unfolding)
    requires mainTree in roots && IsUnfolding(roots, roots[mainTree], u)
    ensures Instantiate(roots, mainTree).error.None? <==>
      NestedWithin(u, 0) && Distinct([""] + ScopesAt(u, [], 1))
    ensures var r := Instantiate(roots, mainTree);
      r.error.None? ==> r.out.log == NodesAt(u, [], 1) && Names(r.out) == [""] + ScopesAt(u, [], 1)
  {
    assert Distinct([""]);
    hide IsUnfolding, NestedWithin, Distinct, ScopesAt, NodesAt, Step, Height;
    var started := EMPTY.(subtrees := [SubtreeOut(mainTree, "", [])]);
    assert Names(started) == [""];
    assert AllHigher(roots, {mainTree}, Height(u)) by {
      assert Higher(roots, mainTree, Height(u));
    }
    assert {} + {mainTree} == {mainTree};
    assert EMPTY.subtrees + [SubtreeOut(mainTree, "", [])] == started.subtrees;
    StepLists(roots, roots[mainTree], u, 0, [], {mainTree}, started, 0);
  }

  /** UIDs are written in base ten, without leading zeros. */
  lemma {:induction false} DigitsAreDecimal(n: nat) returns (ds: seq<nat>)
    ensures NumberText.DigitsOf(ds, 10) && NumberText.Positional(ds, 10) == n
    ensures Digits(n) == NumberText.Numeral(ds, false)
    ensures n > 0 ==> ds != [] && ds[0] != 0
  {
    hide NumberText.Positional, NumberText.Numeral;
    var front: seq<nat> := [];
    if n >= 10 {
      front := DigitsAreDecimal(n / 10);
    } else {
      NoDigits();
    }
    ds := front + [n % 10];
    OneMoreDigit(front, n % 10);
    DigitIs(n % 10);
  }

  lemma NoDigits()
    ensures NumberText.Positional([], 10) == 0 && NumberText.Numeral([], false) == ""
  {
  }

  lemma OneMoreDigit(front: seq<nat>, d: nat)
    requires NumberText.DigitsOf(front, 10) && d < 10
    ensures NumberText.DigitsOf(front + [d], 10)
    ensures NumberText.Positional(front + [d], 10) == NumberText.Positional(front, 10) * 10 + d
    ensures NumberText.Numeral(front + [d], false)
      == NumberText.Numeral(front, false) + [NumberText.DigitChar(d, false)]
  {
    var ds := front + [d];
    assert ds[..|ds| - 1] == front;
    hide NumberText.DigitChar;
  }

  lemma DigitIs(d: nat)
    requires d < 10
    ensures NumberText.DigitChar(d, false) == ('0' as int + d) as char
  {
  }

  // ---------------------------------------------------------------- what goes wrong

  /** The walk ends at what explains the error. */
  ghost predicate Explains(roots: Roots, walk: seq<string>, error: Error) {
    walk != [] &&
    var last := walk[|walk| - 1];
    match error
    case MISSING => last !in roots
    case TOO_DEEP => last in roots && !Shallow(roots[last], 0)
    case _ => true
  }

  lemma {:induction false} CreateExplained(roots: Roots, id: string, path: string, prefix: string, chain: seq<string>,
                                           out: Out, error: Error) returns (walk: seq<string>)
    requires Create(roots, id, path, prefix, SetOf(chain), out).error == Some(error) && IsWalk(roots, chain + [id])
    ensures IsWalk(roots, walk) && chain + [id] <= walk && Explains(roots, walk, error)
    decreases |roots.Keys - SetOf(chain)|, 0, 0
  {
    hide Step, Refers, IsWalk, Shallow;
    if id in SetOf(chain) || id !in roots {
      walk := chain + [id];
    } else {
      assert SetOf(chain + [id]) == SetOf(chain) + {id};
      assert roots.Keys - SetOf(chain + [id]) == (roots.Keys - SetOf(chain)) - {id};
      walk := StepExplained(roots, id, roots[id], |out.subtrees|, prefix, chain,
                            out.(subtrees := out.subtrees + [SubtreeOut(id, path, [])]), 0, error);
    }
  }

  /** e is an element of the tree id. */
  lemma {:induction false} StepExplained(roots: Roots, id: string, e: Element, k: nat, prefix: string,
                                         chain: seq<string>, out: Out, depth: nat, error: Error)
    returns (walk: seq<string>)
    requires k < |out.subtrees| && Step(roots, e, k, prefix, SetOf(chain + [id]), out, depth).error == Some(error)
    requires IsWalk(roots, chain + [id]) && id in roots && forall next :: Refers(e, next) ==> Refers(roots[id], next)
    requires !Shallow(e, depth) ==> !Shallow(roots[id], 0)
    ensures IsWalk(roots, walk) && chain + [id] <= walk && Explains(roots, walk, error)
    decreases |roots.Keys - SetOf(chain + [id])|, Weight(e), 1
  {
    hide Create, StepAll, IsWalk, AllShallow, CreateNode, SubtreePath, NameTaken;
    if depth > MAX_NESTING_DEPTH {
      walk := chain + [id];
    } else {
      var created := CreateNode(out, k, prefix, e);
      CreateNodePlaces(roots, out, k, prefix, e);
      if e.Node? {
        walk := StepAllExplained(roots, id, e.children, k, prefix, chain, created, depth + 1, error);
      } else {
        var path := SubtreePath(created.subtrees[k].instanceName, e, created.uidCounter);
        if NameTaken(created, path) {
          walk := chain + [id];
        } else {
          WalkOn(roots, chain + [id], e.typeId);
          walk := CreateExplained(roots, e.typeId, path, path + "/", chain + [id], created, error);
          assert chain + [id] <= chain + [id] + [e.typeId];
        }
      }
    }
  }

  lemma {:induction false} StepAllExplained(roots: Roots, id: string, cs: seq<Element>, k: nat, prefix: string,
                                            chain: seq<string>, out: Out, depth: nat, error: Error)
    returns (walk: seq<string>)
    requires k < |out.subtrees| && StepAll(roots, cs, k, prefix, SetOf(chain + [id]), out, depth).error == Some(error)
    requires IsWalk(roots, chain + [id]) && id in roots && forall next :: RefersOf(cs, next) ==> Refers(roots[id], next)
    requires !AllShallow(cs, depth) ==> !Shallow(roots[id], 0)
    ensures IsWalk(roots, walk) && chain + [id] <= walk && Explains(roots, walk, error)
    decreases |roots.Keys - SetOf(chain + [id])|, WeightOf(cs), 2
  {
    hide Step, IsWalk, Shallow, Explains;
    var before := StepAll(roots, cs[..|cs| - 1], k, prefix, SetOf(chain + [id]), out, depth);
    if before.error.Some? {
      walk := StepAllExplained(roots, id, cs[..|cs| - 1], k, prefix, chain, out, depth, error);
    } else {
      walk := StepExplained(roots, id, cs[|cs| - 1], k, prefix, chain, before.out, depth, error);
    }
  }

  /** A missing tree is reported only if one is referred to from the main tree, directly or not;
      too deep nesting only if a tree so referred to is nested too deeply. */
  lemma ErrorsExplained(roots: Roots, mainTree: string) returns (walk: seq<string>)
    requires var error := Instantiate(roots, mainTree).error; error == Some(MISSING) || error == Some(TOO_DEEP)
    ensures walk != [] && walk[0] == mainTree && IsWalk(roots, walk)
    ensures var last := walk[|walk| - 1];
      if Instantiate(roots, mainTree).error == Some(MISSING) then last !in roots
      else last in roots && !Shallow(roots[last], 0)
  {
    hide Create, Refers, IsWalk, Shallow;
    assert SetOf([]) == {};
    SingleWalk(roots, mainTree);
    assert [] + [mainTree] == [mainTree];
    walk := CreateExplained(roots, mainTree, "", "", [], EMPTY, Instantiate(roots, mainTree).error.value);
  }
}

/** Halting a whole tree (Tree::haltTree and what it calls). */
module TreeHalt {

  datatype NodeStatus = IDLE | RUNNING | SUCCESS | FAILURE | SKIPPED

  /** Leaves other than stateful actions reset their status when they are halted; a control or
      decorator node resets its children first. */
  datatype Kind = Stateful | Leaf | Control | Decorator

  /** The status, and how often onHalted was called and the node was halted by haltNode, which
      runs its script for this. */
  datatype NodeState = NodeState(status: NodeStatus, halted: nat, scripts: nat)

  type State = map<TreeNode, NodeState>

  // ---------------------------------------------------------------- trees

  ghost function Nodes(n: TreeNode): (r: set<TreeNode>)
    ensures n in r
    decreases n.height, 1, 0
  {
    {n} + NodesOf(n.children, n.height)
  }

  ghost function NodesOf(cs: seq<TreeNode>, h: nat): set<TreeNode>
    decreases h, 0, |cs|
  {
    if cs == [] then {}
    else
      var last := cs[|cs| - 1];
      NodesOf(cs[..|cs| - 1], h) + if last.height < h then Nodes(last) else {}
  }

  /** The node and those below it form a tree: no node is below itself, no two children have a
      node in common; only control and decorator nodes have children. */
  ghost predicate IsTree(n: TreeNode)
    decreases n.height
  {
    && (n.kind == Stateful || n.kind == Leaf ==> n.children == [])
    && (forall c :: c in n.children ==> c.height < n.height && IsTree(c))
    && forall i, j :: 0 <= i < j < |n.children| ==> Nodes(n.children[i]) !! Nodes(n.children[j])
  }

  ghost predicate AreTrees(cs: seq<TreeNode>, h: nat) {
    && (forall c :: c in cs ==> c.height < h && IsTree(c))
    && forall i, j :: 0 <= i < j < |cs| ==> Nodes(cs[i]) !! Nodes(cs[j])
  }

  // ---------------------------------------------------------------- what the operations do

  function ResetStatus(s: State, n: TreeNode): State
    requires n in s
  {
    s[n := s[n].(status := IDLE)]
  }

  /** halt(), by the kind of the node. */
  ghost function Halt(s: State, n: TreeNode): (t: State)
    requires IsTree(n) && Nodes(n) <= s.Keys
    ensures t.Keys == s.Keys
    decreases n.height, 1, 0
  {
    match n.kind
    case Stateful =>
      ResetStatus(if s[n].status == RUNNING then s[n := s[n].(halted := s[n].halted + 1)] else s, n)
    case Leaf => ResetStatus(s, n)
    case _ => ResetStatus(ResetChildren(s, n.children, n.height), n)
  }

  ghost function HaltNode(s: State, n: TreeNode): (t: State)
    requires IsTree(n) && Nodes(n) <= s.Keys
    ensures t.Keys == s.Keys
    decreases n.height, 2, 0
  {
    var t := Halt(s, n);
    t[n := t[n].(scripts := t[n].scripts + 1)]
  }

  ghost function ResetChild(s: State, c: TreeNode): (t: State)
    requires IsTree(c) && Nodes(c) <= s.Keys
    ensures t.Keys == s.Keys
    decreases c.height, 3, 0
  {
    ResetStatus(if s[c].status == RUNNING then HaltNode(s, c) else s, c)
  }

  ghost function ResetChildren(s: State, cs: seq<TreeNode>, h: nat): (t: State)
    requires AreTrees(cs, h) && NodesOf(cs, h) <= s.Keys
    ensures t.Keys == s.Keys
    decreases h, 0, |cs|
  {
    if cs == [] then s else ResetChild(ResetChildren(s, cs[..|cs| - 1], h), cs[|cs| - 1])
  }

  /** applyRecursiveVisitor, with haltNode for a visitor. */
  ghost function Visit(s: State, n: TreeNode): (t: State)
    requires IsTree(n) && Nodes(n) <= s.Keys
    ensures t.Keys == s.Keys
    decreases n.height, 1, 0
  {
    VisitAll(HaltNode(s, n), n.children, n.height)
  }

  ghost function VisitAll(s: State, cs: seq<TreeNode>, h: nat): (t: State)
    requires AreTrees(cs, h) && NodesOf(cs, h) <= s.Keys
    ensures t.Keys == s.Keys
    decreases h, 0, |cs|
  {
    if cs == [] then s else Visit(VisitAll(s, cs[..|cs| - 1], h), cs[|cs| - 1])
  }

  ghost function HaltTree(s: State, root: TreeNode): (t: State)
    requires IsTree(root) && Nodes(root) <= s.Keys
    ensures t.Keys == s.Keys
  {
    ResetStatus(Visit(HaltNode(s, root), root), root)
  }

  // ---------------------------------------------------------------- what is conserved

  function Running(s: State, n: TreeNode): nat
    requires n in s
  {
    if s[n].status == RUNNING then 1 else 0
  }

  /** From s to t a status changes only to IDLE, and a stateful action loses its status RUNNING
      exactly when onHalted is called. */
  ghost predicate Conserves(s: State, t: State) {
    && t.Keys == s.Keys
    && forall n :: n in s ==>
      && (t[n].status == s[n].status || t[n].status == IDLE)
      && t[n].halted + (if n.kind == Stateful then Running(t, n) else 0)
         == s[n].halted + (if n.kind == Stateful then Running(s, n) else 0)
  }

  lemma ResetConserves(s: State, n: TreeNode)
    requires n in s && (n.kind != Stateful || s[n].status != RUNNING)
    ensures Conserves(s, ResetStatus(s, n))
  {
  }

  lemma ConservesTrans(s: State, t: State, u: State)
    requires Conserves(s, t) && Conserves(t, u)
    ensures Conserves(s, u)
  {
  }

  lemma ConservesSelf(s: State)
    ensures Conserves(s, s)
  {
  }

  lemma {:induction false} HaltConserves(s: State, n: TreeNode)
    requires IsTree(n) && Nodes(n) <= s.Keys
    ensures Conserves(s, Halt(s, n)) && Halt(s, n)[n].status == IDLE
    decreases n.height, 1, 0
  {
    hide Conserves;
    match n.kind
    case Stateful => StatefulConserves(s, n);
    case Leaf => ResetConserves(s, n);
    case _ =>
      ResetChildrenConserves(s, n.children, n.height);
      var t := ResetChildren(s, n.children, n.height);
      ResetConserves(t, n);
      ConservesTrans(s, t, ResetStatus(t, n));
  }

  lemma StatefulConserves(s: State, n: TreeNode)
    requires IsTree(n) && Nodes(n) <= s.Keys && n.kind == Stateful
    ensures Conserves(s, Halt(s, n)) && Halt(s, n)[n].status == IDLE
  {
  }

  lemma HaltNodeConserves(s: State, n: TreeNode)
    requires IsTree(n) && Nodes(n) <= s.Keys
    ensures Conserves(s, HaltNode(s, n)) && HaltNode(s, n)[n].status == IDLE
    decreases n.height, 2, 0
  {
    hide Halt;
    HaltConserves(s, n);
  }

  lemma ResetChildConserves(s: State, c: TreeNode)
    requires IsTree(c) && Nodes(c) <= s.Keys
    ensures Conserves(s, ResetChild(s, c)) && ResetChild(s, c)[c].status == IDLE
    decreases c.height, 3, 0
  {
    hide HaltNode, Conserves;
    ConservesSelf(s);
    HaltNodeConserves(s, c);
    var t := if s[c].status == RUNNING then HaltNode(s, c) else s;
    ResetConserves(t, c);
    ConservesTrans(s, t, ResetStatus(t, c));
  }

  lemma {:induction false} ResetChildrenConserves(s: State, cs: seq<TreeNode>, h: nat)
    requires AreTrees(cs, h) && NodesOf(cs, h) <= s.Keys
    ensures Conserves(s, ResetChildren(s, cs, h))
    decreases h, 0, |cs|
  {
    hide ResetChild, Conserves;
    if cs == [] {
      ConservesSelf(s);
    } else {
      var t := ResetChildren(s, cs[..|cs| - 1], h);
      ResetChildrenConserves(s, cs[..|cs| - 1], h);
      ResetChildConserves(t, cs[|cs| - 1]);
      ConservesTrans(s, t, ResetChild(t, cs[|cs| - 1]));
    }
  }

  lemma VisitConserves(s: State, n: TreeNode)
    requires IsTree(n) && Nodes(n) <= s.Keys
    ensures Conserves(s, Visit(s, n)) && forall m :: m in Nodes(n) ==> Visit(s, n)[m].status == IDLE
    decreases n.height, 1, 0
  {
    hide HaltNode;
    HaltNodeConserves(s, n);
    VisitAllConserves(HaltNode(s, n), n.children, n.height);
    ConservesTrans(s, HaltNode(s, n), Visit(s, n));
  }

  lemma {:induction false} VisitAllConserves(s: State, cs: seq<TreeNode>, h: nat)
    requires AreTrees(cs, h) && NodesOf(cs, h) <= s.Keys
    ensures Conserves(s, VisitAll(s, cs, h)) && forall m :: m in NodesOf(cs, h) ==> VisitAll(s, cs, h)[m].status == IDLE
    decreases h, 0, |cs|
  {
    hide Visit;
    if cs == [] {
      ConservesSelf(s);
    } else {
      var t := VisitAll(s, cs[..|cs| - 1], h);
      VisitAllConserves(s, cs[..|cs| - 1], h);
      VisitConserves(t, cs[|cs| - 1]);
      ConservesTrans(s, t, VisitAll(s, cs, h));
    }
  }

  /** haltTree leaves every node of the tree idle, from any mix of states, and has called onHalted
      exactly once on each stateful action that was running, and on no other node. */
  lemma HaltTreeHalts(s: State, root: TreeNode)
    requires IsTree(root) && Nodes(root) <= s.Keys
    ensures var t := HaltTree(s, root);
      forall m :: m in Nodes(root) ==>
        && t[m].status == IDLE
        && t[m].halted == s[m].halted + if m.kind == Stateful && s[m].status == RUNNING then 1 else 0
  {
    hide HaltNode, Visit;
    var t := HaltNode(s, root);
    HaltNodeConserves(s, root);
    VisitConserves(t, root);
    ConservesTrans(s, t, Visit(t, root));
    ResetConserves(Visit(t, root), root);
    ConservesTrans(s, Visit(t, root), HaltTree(s, root));
  }

  // ---------------------------------------------------------------- what is left alone

  ghost predicate Frames(s: State, t: State, nodes: set<TreeNode>) {
    t.Keys == s.Keys && forall m :: m in s && m !in nodes ==> t[m] == s[m]
  }

  lemma HaltFrames(s: State, n: TreeNode)
    requires IsTree(n) && Nodes(n) <= s.Keys
    ensures Frames(s, Halt(s, n), Nodes(n))
    decreases n.height, 1, 0
  {
    if n.kind == Control || n.kind == Decorator {
      hide ResetChildren;
      ResetChildrenFrames(s, n.children, n.height);
    }
  }

  lemma HaltNodeFrames(s: State, n: TreeNode)
    requires IsTree(n) && Nodes(n) <= s.Keys
    ensures Frames(s, HaltNode(s, n), Nodes(n))
    decreases n.height, 2, 0
  {
    hide Halt;
    HaltFrames(s, n);
  }

  lemma ResetChildFrames(s: State, c: TreeNode)
    requires IsTree(c) && Nodes(c) <= s.Keys
    ensures Frames(s, ResetChild(s, c), Nodes(c))
    decreases c.height, 3, 0
  {
    hide HaltNode;
    HaltNodeFrames(s, c);
  }

  lemma {:induction false} ResetChildrenFrames(s: State, cs: seq<TreeNode>, h: nat)
    requires AreTrees(cs, h) && NodesOf(cs, h) <= s.Keys
    ensures Frames(s, ResetChildren(s, cs, h), NodesOf(cs, h))
    decreases h, 0, |cs|
  {
    if cs != [] {
      hide ResetChild;
      ResetChildrenFrames(s, cs[..|cs| - 1], h);
      ResetChildFrames(ResetChildren(s, cs[..|cs| - 1], h), cs[|cs| - 1]);
    }
  }

  lemma VisitFrames(s: State, n: TreeNode)
    requires IsTree(n) && Nodes(n) <= s.Keys
    ensures Frames(s, Visit(s, n), Nodes(n))
    decreases n.height, 1, 0
  {
    hide HaltNode, VisitAll;
    HaltNodeFrames(s, n);
    VisitAllFrames(HaltNode(s, n), n.children, n.height);
  }

  lemma {:induction false} VisitAllFrames(s: State, cs: seq<TreeNode>, h: nat)
    requires AreTrees(cs, h) && NodesOf(cs, h) <= s.Keys
    ensures Frames(s, VisitAll(s, cs, h), NodesOf(cs, h))
    decreases h, 0, |cs|
  {
    if cs != [] {
      hide Visit;
      VisitAllFrames(s, cs[..|cs| - 1], h);
      VisitFrames(VisitAll(s, cs[..|cs| - 1], h), cs[|cs| - 1]);
    }
  }

  /** Whose subtree a node is in. */
  lemma {:induction false} InSubtree(cs: seq<TreeNode>, h: nat, m: TreeNode) returns (i: nat)
    requires m in NodesOf(cs, h)
    ensures i < |cs| && cs[i].height < h && m in Nodes(cs[i])
    decreases |cs|
  {
    if m in NodesOf(cs[..|cs| - 1], h) {
      i := InSubtree(cs[..|cs| - 1], h, m);
    } else {
      i := |cs| - 1;
    }
  }

  lemma {:induction false} SubtreeIn(cs: seq<TreeNode>, h: nat, i: nat)
    requires i < |cs| && cs[i].height < h
    ensures Nodes(cs[i]) <= NodesOf(cs, h)
    decreases |cs|
  {
    if i < |cs| - 1 {
      SubtreeIn(cs[..|cs| - 1], h, i);
    }
  }

  lemma LastApart(cs: seq<TreeNode>, h: nat)
    requires AreTrees(cs, h) && cs != []
    ensures AreTrees(cs[..|cs| - 1], h) && NodesOf(cs[..|cs| - 1], h) !! Nodes(cs[|cs| - 1])
  {
    hide Nodes, NodesOf;
    var below, last := NodesOf(cs[..|cs| - 1], h), Nodes(cs[|cs| - 1]);
    forall m | m in below ensures m !in last {
      var i := InSubtree(cs[..|cs| - 1], h, m);
    }
  }

  lemma {:induction false} NotAbove(n: TreeNode, m: TreeNode)
    requires m in Nodes(n)
    ensures m.height <= n.height && (m != n ==> m.height < n.height)
    decreases n.height
  {
    if m != n {
      var i := InSubtree(n.children, n.height, m);
      NotAbove(n.children[i], m);
    }
  }

  // ---------------------------------------------------------------- what one halt reaches

  /** Halting n resets m: all the way down from n the nodes in between are running. */
  ghost predicate Touched(s: State, n: TreeNode, m: TreeNode)
    requires IsTree(n) && Nodes(n) <= s.Keys
    decreases n.height, 1, 0
  {
    m == n || TouchedBelow(s, n.children, n.height, m)
  }

  ghost predicate TouchedBelow(s: State, cs: seq<TreeNode>, h: nat, m: TreeNode)
    requires AreTrees(cs, h) && NodesOf(cs, h) <= s.Keys
    decreases h, 0, |cs|
  {
    cs != [] && (TouchedBelow(s, cs[..|cs| - 1], h, m) || TouchedChild(s, cs[|cs| - 1], m))
  }

  ghost predicate TouchedChild(s: State, c: TreeNode, m: TreeNode)
    requires IsTree(c) && Nodes(c) <= s.Keys
    decreases c.height, 3, 0
  {
    m == c || (s[c].status == RUNNING && Touched(s, c, m))
  }

  lemma TouchedInside(s: State, n: TreeNode, m: TreeNode)
    requires IsTree(n) && Nodes(n) <= s.Keys && Touched(s, n, m)
    ensures m in Nodes(n)
    decreases n.height, 1, 0
  {
    if m != n {
      TouchedBelowInside(s, n.children, n.height, m);
    }
  }

  lemma {:induction false} TouchedBelowInside(s: State, cs: seq<TreeNode>, h: nat, m: TreeNode)
    requires AreTrees(cs, h) && NodesOf(cs, h) <= s.Keys && TouchedBelow(s, cs, h, m)
    ensures m in NodesOf(cs, h)
    decreases h, 0, |cs|
  {
    if TouchedBelow(s, cs[..|cs| - 1], h, m) {
      TouchedBelowInside(s, cs[..|cs| - 1], h, m);
    } else if m != cs[|cs| - 1] {
      TouchedInside(s, cs[|cs| - 1], m);
    }
  }

  ghost predicate SameStatus(s: State, t: State, nodes: set<TreeNode>) {
    forall m :: m in nodes ==> m in s && m in t && s[m].status == t[m].status
  }

  lemma TouchedLocal(s: State, t: State, n: TreeNode, m: TreeNode)
    requires IsTree(n) && Nodes(n) <= s.Keys && Nodes(n) <= t.Keys && SameStatus(s, t, Nodes(n))
    ensures Touched(s, n, m) <==> Touched(t, n, m)
    decreases n.height, 1, 0
  {
    TouchedBelowLocal(s, t, n.children, n.height, m);
  }

  lemma {:induction false} TouchedBelowLocal(s: State, t: State, cs: seq<TreeNode>, h: nat, m: TreeNode)
    requires AreTrees(cs, h) && NodesOf(cs, h) <= s.Keys && NodesOf(cs, h) <= t.Keys && SameStatus(s, t, NodesOf(cs, h))
    ensures TouchedBelow(s, cs, h, m) <==> TouchedBelow(t, cs, h, m)
    decreases h, 0, |cs|
  {
    if cs != [] {
      TouchedBelowLocal(s, t, cs[..|cs| - 1], h, m);
      TouchedLocal(s, t, cs[|cs| - 1], m);
    }
  }

  /** The status of a node after a halt. */
  ghost predicate Becomes(s: State, t: State, m: TreeNode, touched: bool)
    requires m in s && m in t
  {
    t[m].status == if touched then IDLE else s[m].status
  }

  lemma HaltTouches(s: State, n: TreeNode, m: TreeNode)
    requires IsTree(n) && Nodes(n) <= s.Keys && m in Nodes(n)
    ensures Becomes(s, Halt(s, n), m, Touched(s, n, m))
    decreases n.height, 1, 0
  {
    HaltConserves(s, n);
    if m != n {
      ChildrenTouched(s, n.children, n.height, m);
    }
  }

  lemma ChildTouched(s: State, c: TreeNode, m: TreeNode)
    requires IsTree(c) && Nodes(c) <= s.Keys && m in Nodes(c)
    ensures Becomes(s, ResetChild(s, c), m, TouchedChild(s, c, m))
    decreases c.height, 3, 0
  {
    hide Halt;
    HaltTouches(s, c, m);
  }

  lemma {:induction false} ChildrenTouched(s: State, cs: seq<TreeNode>, h: nat, m: TreeNode)
    requires AreTrees(cs, h) && NodesOf(cs, h) <= s.Keys && m in NodesOf(cs, h)
    ensures Becomes(s, ResetChildren(s, cs, h), m, TouchedBelow(s, cs, h, m))
    decreases h, 0, |cs|
  {
    hide ResetChild, Nodes, AreTrees;
    var init, last := cs[..|cs| - 1], cs[|cs| - 1];
    LastApart(cs, h);
    SplitNodes(cs, h);
    var t := ResetChildren(s, init, h);
    ResetChildrenFrames(s, init, h);
    if m in Nodes(last) {
      ChildTouched(t, last, m);
      TouchedLocal(s, t, last, m);
      if TouchedBelow(s, init, h, m) {
        TouchedBelowInside(s, init, h, m);
      }
    } else {
      ChildrenTouched(s, init, h, m);
      ResetChildFrames(t, last);
      if TouchedChild(s, last, m) {
        NodesSelf(last);
        TouchedInside(s, last, m);
      }
    }
  }

  lemma NodesSelf(n: TreeNode)
    ensures n in Nodes(n)
  {
  }

  lemma SplitNodes(cs: seq<TreeNode>, h: nat)
    requires AreTrees(cs, h) && cs != []
    ensures IsTree(cs[|cs| - 1]) && NodesOf(cs, h) == NodesOf(cs[..|cs| - 1], h) + Nodes(cs[|cs| - 1])
  {
  }

  // ---------------------------------------------------------------- when the second pass does nothing

  /** Every node that is not idle has a running parent or the root for a parent. */
  ghost predicate Calm(s: State, root: TreeNode)
    requires IsTree(root) && Nodes(root) <= s.Keys
  {
    forall p, c :: p in Nodes(root) && c in p.children && c in s && p in s && s[c].status != IDLE ==>
      p == root || s[p].status == RUNNING
  }

  /** As Calm, but for the root as well. */
  ghost predicate CalmThroughout(s: State, n: TreeNode)
    requires IsTree(n) && Nodes(n) <= s.Keys
  {
    forall p, c :: p in Nodes(n) && c in p.children && c in s && p in s && s[c].status != IDLE ==>
      s[p].status == RUNNING
  }

  lemma ChildParts(n: TreeNode, i: nat)
    requires IsTree(n) && i < |n.children|
    ensures IsTree(n.children[i]) && n.children[i].height < n.height && Nodes(n.children[i]) <= Nodes(n)
    ensures n !in Nodes(n.children[i])
  {
    SubtreeIn(n.children, n.height, i);
    if n in Nodes(n.children[i]) {
      NotAbove(n.children[i], n);
    }
  }

  lemma {:induction false} RunsAbove(s: State, n: TreeNode, m: TreeNode)
    requires IsTree(n) && Nodes(n) <= s.Keys && CalmThroughout(s, n) && m in Nodes(n) && m != n && s[m].status != IDLE
    ensures s[n].status == RUNNING
    decreases n.height
  {
    var i := InSubtree(n.children, n.height, m);
    var c := n.children[i];
    ChildParts(n, i);
    if m != c {
      RunsAbove(s, c, m);
    }
    assert c in n.children;
  }

  lemma {:induction false} CalmTouches(s: State, n: TreeNode, m: TreeNode)
    requires IsTree(n) && Nodes(n) <= s.Keys && Calm(s, n) && m in Nodes(n) && s[m].status != IDLE
    ensures Touched(s, n, m)
    decreases n.height
  {
    if m != n {
      var i := InSubtree(n.children, n.height, m);
      var c := n.children[i];
      ChildParts(n, i);
      SubCalm(s, n, i);
      if m != c {
        RunsAbove(s, c, m);
        CalmTouches(s, c, m);
      }
      TouchedThrough(s, n.children, n.height, i, m);
    }
  }

  lemma SubCalm(s: State, n: TreeNode, i: nat)
    requires IsTree(n) && Nodes(n) <= s.Keys && Calm(s, n) && i < |n.children|
    ensures IsTree(n.children[i]) && Nodes(n.children[i]) <= s.Keys
    ensures Calm(s, n.children[i]) && CalmThroughout(s, n.children[i])
  {
    ChildParts(n, i);
  }

  lemma {:induction false} TouchedThrough(s: State, cs: seq<TreeNode>, h: nat, i: nat, m: TreeNode)
    requires AreTrees(cs, h) && NodesOf(cs, h) <= s.Keys && i < |cs|
    requires (SubtreeIn(cs, h, i); TouchedChild(s, cs[i], m))
    ensures TouchedBelow(s, cs, h, m)
    decreases |cs|
  {
    if i < |cs| - 1 {
      TouchedThrough(s, cs[..|cs| - 1], h, i, m);
    }
  }

  lemma {:induction false} TouchedBy(s: State, cs: seq<TreeNode>, h: nat, m: TreeNode) returns (i: nat)
    requires AreTrees(cs, h) && NodesOf(cs, h) <= s.Keys && TouchedBelow(s, cs, h, m)
    ensures i < |cs| && Nodes(cs[i]) <= s.Keys && TouchedChild(s, cs[i], m)
    decreases |cs|
  {
    if TouchedBelow(s, cs[..|cs| - 1], h, m) {
      i := TouchedBy(s, cs[..|cs| - 1], h, m);
    } else {
      i := |cs| - 1;
    }
  }

  /** A child of a node somewhere below the i-th child is below that child too. */
  lemma {:induction false} ChildInside(n: TreeNode, p: TreeNode, c: TreeNode)
    requires IsTree(n) && p in Nodes(n) && c in p.children
    ensures IsTree(p) && c in Nodes(n) && c.height < p.height && c != n
    decreases n.height
  {
    if p == n {
      var i :| 0 <= i < |n.children| && n.children[i] == c;
      ChildParts(n, i);
      NodesSelf(c);
    } else {
      var i := InSubtree(n.children, n.height, p);
      ChildParts(n, i);
      ChildInside(n.children[i], p, c);
    }
  }

  lemma SameBranch(n: TreeNode, i: nat, j: nat, m: TreeNode)
    requires IsTree(n) && i < |n.children| && j < |n.children| && m in Nodes(n.children[i]) && m in Nodes(n.children[j])
    ensures i == j
  {
  }

  lemma {:induction false} TouchedParent(s: State, n: TreeNode, p: TreeNode, c: TreeNode)
    requires IsTree(n) && Nodes(n) <= s.Keys && p in Nodes(n) && c in p.children && Touched(s, n, c)
    ensures p == n || s[p].status == RUNNING
    decreases n.height
  {
    hide Nodes;
    if p != n {
      ChildInside(n, p, c);
      NotBelowSelf(n);
      var i := TouchedBy(s, n.children, n.height, c);
      var d := n.children[i];
      ChildParts(n, i);
      NodesSelf(d);
      var j := ParentBranch(n, p);
      ChildParts(n, j);
      ChildInside(n.children[j], p, c);
      if c != d {
        TouchedInside(s, d, c);
      }
      SameBranch(n, i, j, c);
      if c != d && p != d {
        TouchedParent(s, d, p, c);
      }
    }
  }

  lemma ParentBranch(n: TreeNode, p: TreeNode) returns (j: nat)
    requires IsTree(n) && p in Nodes(n) && p != n
    ensures j < |n.children| && p in Nodes(n.children[j])
  {
    j := InSubtree(n.children, n.height, p);
  }

  ghost predicate AllIdle(s: State, nodes: set<TreeNode>) {
    forall m :: m in nodes ==> m in s && s[m].status == IDLE
  }

  /** After the first call of haltNode the whole tree is idle, if and only if every node that was
      not idle had a running parent or the root for a parent. */
  lemma FirstPassExactly(s: State, root: TreeNode)
    requires IsTree(root) && Nodes(root) <= s.Keys
    ensures AllIdle(HaltNode(s, root), Nodes(root)) <==> Calm(s, root)
  {
    hide Nodes, IsTree, Halt, Touched;
    var t := HaltNode(s, root);
    forall m | m in Nodes(root) ensures Becomes(s, t, m, Touched(s, root, m)) {
      HaltTouches(s, root, m);
    }
    if Calm(s, root) {
      forall m | m in Nodes(root) ensures t[m].status == IDLE {
        if s[m].status != IDLE {
          CalmTouches(s, root, m);
        }
      }
    }
    if AllIdle(t, Nodes(root)) {
      forall p, c | p in Nodes(root) && c in p.children && c in s && p in s && s[c].status != IDLE
        ensures p == root || s[p].status == RUNNING
      {
        ChildInside(root, p, c);
        assert t[c].status == IDLE;
        TouchedParent(s, root, p, c);
      }
    }
  }

  /** The second pass of haltTree, meant to be a no-op, changes no status if and only if that
      holds; and then it calls onHalted on no node. */
  lemma SecondPassExactly(s: State, root: TreeNode)
    requires IsTree(root) && Nodes(root) <= s.Keys
    ensures var t := HaltNode(s, root);
      var u := Visit(t, root);
      && ((forall m :: m in Nodes(root) ==> u[m].status == t[m].status) <==> Calm(s, root))
      && (Calm(s, root) ==> forall m :: m in Nodes(root) ==> u[m].halted == t[m].halted)
  {
    hide HaltNode, Visit, Calm, Nodes;
    var t := HaltNode(s, root);
    FirstPassExactly(s, root);
    VisitConserves(t, root);
  }

  // ---------------------------------------------------------------- how often the scripts run

  /** Runs of the script, and the one that is due while the node is running. */
  function Due(s: State, m: TreeNode): nat
    requires m in s
  {
    s[m].scripts + Running(s, m)
  }

  lemma {:induction false} HaltDue(s: State, n: TreeNode, m: TreeNode)
    requires IsTree(n) && Nodes(n) <= s.Keys && m in s
    ensures if m == n then Halt(s, n)[n].scripts == s[n].scripts else Due(Halt(s, n), m) == Due(s, m)
    decreases n.height, 1, 0
  {
    if n.kind == Control || n.kind == Decorator {
      hide ResetChildren, Nodes;
      ResetChildrenDue(s, n.children, n.height, m);
      ResetChildrenFrames(s, n.children, n.height);
      NotBelowSelf(n);
    }
  }

  lemma NotBelowSelf(n: TreeNode)
    requires IsTree(n)
    ensures n !in NodesOf(n.children, n.height) && NodesOf(n.children, n.height) <= Nodes(n)
  {
    if n in NodesOf(n.children, n.height) {
      var i := InSubtree(n.children, n.height, n);
      ChildParts(n, i);
    }
  }

  lemma {:induction false} ResetChildDue(s: State, c: TreeNode, m: TreeNode)
    requires IsTree(c) && Nodes(c) <= s.Keys && m in s
    ensures Due(ResetChild(s, c), m) == Due(s, m)
    decreases c.height, 3, 0
  {
    hide Halt, Nodes;
    NodesSelf(c);
    if s[c].status == RUNNING {
      HaltDue(s, c, m);
      HaltConserves(s, c);
    }
  }

  lemma {:induction false} ResetChildrenDue(s: State, cs: seq<TreeNode>, h: nat, m: TreeNode)
    requires AreTrees(cs, h) && NodesOf(cs, h) <= s.Keys && m in s
    ensures Due(ResetChildren(s, cs, h), m) == Due(s, m)
    decreases h, 0, |cs|
  {
    if cs != [] {
      hide ResetChild, Due;
      ResetChildrenDue(s, cs[..|cs| - 1], h, m);
      ResetChildDue(ResetChildren(s, cs[..|cs| - 1], h), cs[|cs| - 1], m);
    }
  }

  lemma HaltedChildrenIdle(s: State, n: TreeNode, i: nat)
    requires IsTree(n) && Nodes(n) <= s.Keys && i < |n.children|
    ensures n.children[i] in s && HaltNode(s, n)[n.children[i]].status == IDLE
  {
    hide Halt, Touched;
    var c := n.children[i];
    ChildParts(n, i);
    NodesSelf(c);
    HaltTouches(s, n, c);
    SubtreeIn(n.children, n.height, i);
    TouchedThrough(s, n.children, n.height, i, c);
    ChildIsTouched(s, n, c);
  }

  lemma ChildIsTouched(s: State, n: TreeNode, c: TreeNode)
    requires IsTree(n) && Nodes(n) <= s.Keys && TouchedBelow(s, n.children, n.height, c)
    ensures Touched(s, n, c)
  {
  }

  /** Visiting a subtree whose root is idle runs every script in it once, and those of the running
      nodes a second time. */
  lemma {:induction false} VisitDue(s: State, n: TreeNode, m: TreeNode)
    requires IsTree(n) && Nodes(n) <= s.Keys && s[n].status == IDLE && m in Nodes(n)
    ensures Due(Visit(s, n), m) == Due(s, m) + 1
    decreases n.height, 1, 0
  {
    hide Halt, VisitAll, Nodes;
    var t := HaltNode(s, n);
    NotBelowSelf(n);
    HaltDue(s, n, m);
    HaltConserves(s, n);
    if m == n {
      VisitAllFrames(t, n.children, n.height);
    } else {
      forall c | c in n.children ensures c in t && t[c].status == IDLE {
        var i :| 0 <= i < |n.children| && n.children[i] == c;
        HaltedChildrenIdle(s, n, i);
      }
      BelowOrSelf(n, m);
      VisitAllDue(t, n.children, n.height, m);
    }
  }

  lemma BelowOrSelf(n: TreeNode, m: TreeNode)
    requires m in Nodes(n)
    ensures m == n || m in NodesOf(n.children, n.height)
  {
  }

  lemma {:induction false} VisitAllDue(s: State, cs: seq<TreeNode>, h: nat, m: TreeNode)
    requires AreTrees(cs, h) && NodesOf(cs, h) <= s.Keys && m in NodesOf(cs, h)
    requires forall c :: c in cs ==> c in s && s[c].status == IDLE
    ensures Due(VisitAll(s, cs, h), m) == Due(s, m) + 1
    decreases h, 0, |cs|
  {
    hide Visit, Nodes, Due;
    var init, last := cs[..|cs| - 1], cs[|cs| - 1];
    var t := VisitAll(s, init, h);
    LastApart(cs, h);
    SplitNodes(cs, h);
    NodesSelf(last);
    VisitAllConserves(s, init, h);
    VisitAllFrames(s, init, h);
    if m in Nodes(last) {
      VisitDue(t, last, m);
      SameDue(s, t, m);
    } else {
      VisitAllDue(s, init, h, m);
      VisitFrames(t, last);
      SameDue(t, Visit(t, last), m);
    }
  }

  lemma SameDue(s: State, t: State, m: TreeNode)
    requires m in s && m in t && s[m] == t[m]
    ensures Due(s, m) == Due(t, m)
  {
  }

  /** The halting scripts: haltTree runs that of the root twice, that of a running node twice, and
      that of every other node once, though it was not running. */
  lemma ScriptsRun(s: State, root: TreeNode, m: TreeNode)
    requires IsTree(root) && Nodes(root) <= s.Keys && m in Nodes(root)
    ensures HaltTree(s, root)[m].scripts == s[m].scripts + if m == root || s[m].status == RUNNING then 2 else 1
  {
    hide Halt, Visit, Nodes;
    var t := HaltNode(s, root);
    HaltConserves(s, root);
    HaltDue(s, root, m);
    VisitDue(t, root, m);
    VisitConserves(t, root);
  }

  // ---------------------------------------------------------------- in place

  ghost function Snapshot(nodes: set<TreeNode>): (s: State)
    reads nodes
    ensures s.Keys == nodes
  {
    map n | n in nodes :: NodeState(n.status, n.halted, n.scripts)
  }

  class TreeNode {
    const kind: Kind
    const children: seq<TreeNode>
    ghost const height: nat
    var status: NodeStatus
    var halted: nat
    var scripts: nat

    method ResetStatusHere(ghost nodes: set<TreeNode>)
      requires this in nodes
      modifies this`status
      ensures Snapshot(nodes) == ResetStatus(old(Snapshot(nodes)), this)
    {
      ghost var s := Snapshot(nodes);
      status := IDLE;
      assert Snapshot(nodes) == s[this := s[this].(status := IDLE)];
    }

    method OnHalted(ghost nodes: set<TreeNode>)
      requires this in nodes
      modifies this`halted
      ensures Snapshot(nodes)
        == old(Snapshot(nodes)[this := Snapshot(nodes)[this].(halted := Snapshot(nodes)[this].halted + 1)])
      ensures halted == old(halted) + 1
    {
      ghost var s := Snapshot(nodes);
      halted := halted + 1;
      assert Snapshot(nodes) == s[this := s[this].(halted := s[this].halted + 1)];
    }

    method HaltHere(ghost nodes: set<TreeNode>)
      requires IsTree(this) && Nodes(this) <= nodes
      modifies nodes
      ensures Snapshot(nodes) == Halt(old(Snapshot(nodes)), this)
      decreases height, 1, 0
    {
      if kind == Stateful {
        if status == RUNNING {
          OnHalted(nodes);
        }
      } else if kind != Leaf {
        NotBelowSelf(this);
        ResetChildrenHere(nodes);
      }
      ResetStatusHere(nodes);
    }

    method HaltNodeHere(ghost nodes: set<TreeNode>)
      requires IsTree(this) && Nodes(this) <= nodes
      modifies nodes
      ensures Snapshot(nodes) == HaltNode(old(Snapshot(nodes)), this)
      decreases height, 2, 0
    {
      HaltHere(nodes);
      ghost var s := Snapshot(nodes);
      scripts := scripts + 1;
      assert Snapshot(nodes) == s[this := s[this].(scripts := s[this].scripts + 1)];
    }

    /** ControlNode::haltChild and DecoratorNode::resetChild, called on the child. */
    method ResetChildHere(ghost nodes: set<TreeNode>)
      requires IsTree(this) && Nodes(this) <= nodes
      modifies nodes
      ensures Snapshot(nodes) == ResetChild(old(Snapshot(nodes)), this)
      decreases height, 3, 0
    {
      hide HaltNode;
      NodesSelf(this);
      if status == RUNNING {
        HaltNodeHere(nodes);
      }
      ResetStatusHere(nodes);
    }

    /** ControlNode::resetChildren and haltChildren, and DecoratorNode::resetChild. */
    method ResetChildrenHere(ghost nodes: set<TreeNode>)
      requires IsTree(this) && NodesOf(children, height) <= nodes
      modifies nodes
      ensures Snapshot(nodes) == ResetChildren(old(Snapshot(nodes)), children, height)
      decreases height, 0, 0
    {
      hide ResetChild;
      for i := 0 to |children|
        invariant NodesOf(children[..i], height) <= nodes
        invariant Snapshot(nodes) == ResetChildren(old(Snapshot(nodes)), children[..i], height)
      {
        SubtreeIn(children, height, i);
        PrefixNodes(children, height, i);
        children[i].ResetChildHere(nodes);
      }
      assert children[..|children|] == children;
    }

    method ApplyHaltVisitor(ghost nodes: set<TreeNode>)
      requires IsTree(this) && Nodes(this) <= nodes
      modifies nodes
      ensures Snapshot(nodes) == Visit(old(Snapshot(nodes)), this)
      decreases height, 1, 0
    {
      hide HaltNode, Snapshot, Nodes, NodesOf;
      HaltNodeHere(nodes);
      ghost var s := Snapshot(nodes);
      NotBelowSelf(this);
      NoNodes(children, height);
      for i := 0 to |children|
        invariant NodesOf(children[..i], height) <= nodes
        invariant Snapshot(nodes) == VisitAll(s, children[..i], height)
      {
        SubtreeIn(children, height, i);
        PrefixNodes(children, height, i);
        children[i].ApplyHaltVisitor(nodes);
      }
      assert children[..|children|] == children;
    }
  }

  lemma NoNodes(cs: seq<TreeNode>, h: nat)
    ensures NodesOf(cs[..0], h) == {}
  {
  }

  lemma PrefixNodes(cs: seq<TreeNode>, h: nat, i: nat)
    requires i < |cs|
    ensures cs[..i + 1][..i] == cs[..i] && cs[..i + 1][i] == cs[i]
    ensures NodesOf(cs[..i + 1], h) == NodesOf(cs[..i], h) + if cs[i].height < h then Nodes(cs[i]) else {}
  {
    assert cs[..i + 1][..i] == cs[..i];
  }

  /** Tree::haltTree; a tree without nodes has no root. */
  method HaltWholeTree(ghost nodes: set<TreeNode>, root: TreeNode?)
    requires root != null ==> IsTree(root) && Nodes(root) <= nodes
    modifies nodes
    ensures Snapshot(nodes) == if root == null then old(Snapshot(nodes)) else HaltTree(old(Snapshot(nodes)), root)
  {
    if root == null {
      return;
    }
    NodesSelf(root);
    hide Halt, Visit, HaltNode;
    root.HaltNodeHere(nodes);
    root.ApplyHaltVisitor(nodes);
    root.ResetStatusHere(nodes);
  }
}

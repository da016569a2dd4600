/** What moving a node (XmlLinks) does to the forest of nodes: it stays a forest exactly if the node
    is not put below itself, which the Insert*Child methods of tinyxml2.cpp leave to their caller. */
module XmlForest {
  import opened XmlLinks

  /** Every node lies deeper than its parent. */
  ghost predicate Ranks(m: State, older rank: map<XmlNode, nat>) {
    && rank.Keys == m.Keys
    && forall n :: n in m && m[n].parent != null ==> m[n].parent in m && rank[m[n].parent] < rank[n]
  }

  ghost predicate Acyclic(m: State) {
    exists rank :: Ranks(m, rank)
  }

  /** Each node of the path is the parent of the one before. */
  ghost predicate IsPath(m: State, older path: seq<XmlNode>) {
    && path != [] && (forall i :: 0 <= i < |path| ==> path[i] in m)
    && forall i :: 0 <= i < |path| - 1 ==> m[path[i]].parent == path[i + 1]
  }

  /** n is c, or lies below it. */
  ghost predicate Below(m: State, n: XmlNode, c: XmlNode) {
    exists path :: IsPath(m, path) && path[0] == n && path[|path| - 1] == c
  }

  lemma BelowItself(m: State, c: XmlNode)
    requires c in m
    ensures Below(m, c, c)
  {
    assert IsPath(m, [c]);
  }

  lemma BelowParent(m: State, n: XmlNode, c: XmlNode)
    requires n in m && n != c
    ensures Below(m, n, c) <==> m[n].parent != null && Below(m, m[n].parent, c)
  {
    if Below(m, n, c) {
      var path :| IsPath(m, path) && path[0] == n && path[|path| - 1] == c;
      assert path[0] in m && m[path[0]].parent == path[1];
      assert IsPath(m, path[1..]);
    }
    if m[n].parent != null && Below(m, m[n].parent, c) {
      var path :| IsPath(m, path) && path[0] == m[n].parent && path[|path| - 1] == c;
      assert IsPath(m, [n] + path);
    }
  }

  /** c got p for its parent, and no other parent changed. */
  ghost predicate Moved(m: State, m': State, p: XmlNode, c: XmlNode) {
    && m.Keys == m'.Keys && p in m && c in m && m'[c].parent == p
    && forall n :: n in m && n != c ==> m'[n].parent == m[n].parent
  }

  /** The depths after the move: the nodes below c come to lie below p. */
  ghost function NewRank(m: State, rank: map<XmlNode, nat>, p: XmlNode, c: XmlNode): map<XmlNode, nat>
    requires m.Keys == rank.Keys && p in m
  {
    map n | n in m :: if Below(m, n, c) then rank[n] + rank[p] + 1 else rank[n]
  }

  lemma StaysAcyclic(m: State, m': State, p: XmlNode, c: XmlNode, rank: map<XmlNode, nat>)
    requires Moved(m, m', p, c) && Ranks(m, rank) && !Below(m, p, c)
    ensures Ranks(m', NewRank(m, rank, p, c))
  {
    hide Below;
    BelowItself(m, c);
    var deeper := NewRank(m, rank, p, c);
    forall n | n in m' && m'[n].parent != null ensures m'[n].parent in m' && deeper[m'[n].parent] < deeper[n] {
      if n != c {
        BelowParent(m, n, c);
      }
    }
  }

  /** Along a path up to c the depth decreases, wherever c itself has gone. */
  lemma {:induction false} PathRises(m: State, m': State, p: XmlNode, c: XmlNode, rank: map<XmlNode, nat>,
          path: seq<XmlNode>)
    requires Moved(m, m', p, c) && Ranks(m', rank) && IsPath(m, path) && path[|path| - 1] == c && path[0] in m
    ensures rank[c] <= rank[path[0]]
    decreases |path|
  {
    if path[0] != c {
      assert m[path[0]].parent == path[1];
      assert IsPath(m, path[1..]);
      PathRises(m, m', p, c, rank, path[1..]);
    }
  }

  lemma BelowRises(m: State, m': State, p: XmlNode, c: XmlNode, rank: map<XmlNode, nat>)
    requires Moved(m, m', p, c) && Ranks(m', rank) && Below(m, p, c)
    ensures rank[c] <= rank[p]
  {
    var path :| IsPath(m, path) && path[0] == p && path[|path| - 1] == c;
    PathRises(m, m', p, c, rank, path);
  }

  /** Moving c under p keeps the forest one if and only if p was not c, nor below it. */
  lemma MoveKeepsForest(m: State, m': State, p: XmlNode, c: XmlNode)
    requires Moved(m, m', p, c) && Acyclic(m)
    ensures Acyclic(m') <==> !Below(m, p, c)
  {
    hide Ranks, Below;
    var rank :| Ranks(m, rank);
    if !Below(m, p, c) {
      StaysAcyclic(m, m', p, c, rank);
    } else if Acyclic(m') {
      var rank' :| Ranks(m', rank');
      BelowRises(m, m', p, c, rank');
      ParentAbove(m', c, rank');
    }
  }

  lemma ParentAbove(m: State, c: XmlNode, rank: map<XmlNode, nat>)
    requires Ranks(m, rank) && c in m && m[c].parent != null
    ensures m[c].parent in m && rank[m[c].parent] < rank[c]
  {
  }

  /** What the Insert*Child methods promise of the child lists says that they moved the node. */
  lemma InsertionMoves(m: State, m': State, p: XmlNode, c: XmlNode)
    requires WellFormed(m) && WellFormed(m') && m.Keys == m'.Keys && p in m && c in m && c in m'[p].children
    requires forall n, x :: n in m && x != c ==> (x in m'[n].children <==> x in m[n].children)
    ensures Moved(m, m', p, c)
  {
    ParentListed(m', c, p);
    hide WellFormed;
    forall n | n in m && n != c ensures m'[n].parent == m[n].parent {
      if m[n].parent != null {
        var q: XmlNode := m[n].parent;
        ParentListed(m, n, q);
        ParentListed(m', n, q);
      }
      if m'[n].parent != null {
        var q: XmlNode := m'[n].parent;
        ParentListed(m', n, q);
        ParentListed(m, n, q);
      }
    }
  }

  /** A node is in the list of its parent, and in no other. */
  lemma ParentListed(m: State, n: XmlNode, q: XmlNode)
    requires WellFormed(m) && n in m && (q in m || m[n].parent == q)
    ensures q in m && (n in m[q].children <==> m[n].parent == q)
  {
    assert Placed(m, n);
    assert Linked(m, q);
  }

  /** Where InsertAfterChild follows a null link: at a node with two children, the second is to be
      put behind the first, where it is. */
  method NullLinkExample() returns (r: Outcome)
    ensures r == NullLink
  {
    var parent := new XmlNode(0);
    var first := new XmlNode(0);
    var second := new XmlNode(0);
    hide WellFormed, Without, InsertedAfter, XmlNode.StateOf;
    ghost var all := {parent, first, second};
    XmlNode.StateAt(all);
    LoneNodes(XmlNode.StateOf(all));
    var _ := parent.InsertEndChild(first, all);
    var _ := parent.InsertEndChild(second, all);
    NothingToTakeOut(first, second);
    XmlNode.StateAt(all);
    TwoChildren(XmlNode.StateOf(all), parent, first, second);
    r := parent.InsertAfterChild(first, second, all);
  }

  lemma LoneNodes(m: State)
    requires forall n :: n in m ==> m[n] == Links(null, null, null, null, null, [])
    ensures WellFormed(m)
  {
  }

  lemma NothingToTakeOut(first: XmlNode, second: XmlNode)
    requires first != second
    ensures Without([], first) == [] && Without([first], second) == [first]
    ensures [] + [first] == [first] && [first] + [second] == [first, second]
  {
    assert second !in [first];
  }

  lemma TwoChildren(m: State, p: XmlNode, first: XmlNode, second: XmlNode)
    requires WellFormed(m) && p in m && m[p].children == [first, second]
    ensures first in m && second in m && m[first].parent == p && m[first].next == second && m[second].next == null
    ensures first != second
  {
    assert Linked(m, p);
    assert m[p].children[0] == first && m[p].children[1] == second;
  }
}

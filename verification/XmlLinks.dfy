/** The doubly linked child lists of tinyxml2's nodes: Unlink and the Insert*Child methods
    (tinyxml2.cpp), which rewrite the links in place. Each node has a ghost field with the list
    of its children; the methods are proved to do to that list what their names say. */
module XmlLinks {

  /** s without the first occurrence of x. */
  function Without<T(==)>(s: seq<T>, x: T): (r: seq<T>)
    ensures x !in s ==> r == s
    ensures x in s ==> |r| == |s| - 1
    ensures forall y :: y in r ==> y in s
    ensures forall y :: y in s && y != x ==> y in r
  {
    if s == [] then []
    else if s[0] == x then s[1..]
    else [s[0]] + Without(s[1..], x)
  }

  /** s with x put right after the first occurrence of y. */
  function InsertedAfter<T(==)>(s: seq<T>, y: T, x: T): seq<T> {
    if s == [] then []
    else if s[0] == y then [y, x] + s[1..]
    else [s[0]] + InsertedAfter(s[1..], y, x)
  }

  ghost predicate Distinct<T>(s: seq<T>) {
    forall i, j :: 0 <= i < j < |s| ==> s[i] != s[j]
  }

  lemma {:induction false} WithoutIs<T>(s: seq<T>, k: nat)
    requires k < |s| && Distinct(s)
    ensures Without(s, s[k]) == s[..k] + s[k + 1..] && s[k] !in Without(s, s[k])
  {
    if k > 0 {
      assert Distinct(s[1..]);
      WithoutIs(s[1..], k - 1);
      assert s[1..][..k - 1] == s[1..k] && s[1..][k..] == s[k + 1..];
      assert [s[0]] + (s[1..k] + s[k + 1..]) == s[..k] + s[k + 1..];
    }
  }

  lemma {:induction false} InsertedAfterIs<T>(s: seq<T>, k: nat, x: T)
    requires k < |s| && Distinct(s)
    ensures InsertedAfter(s, s[k], x) == s[..k + 1] + [x] + s[k + 1..]
  {
    if k == 0 {
      assert [s[0], x] + s[1..] == s[..1] + [x] + s[1..];
    } else {
      assert Distinct(s[1..]);
      InsertedAfterIs(s[1..], k - 1, x);
      assert s[1..][..k] == s[1..k + 1] && s[1..][k..] == s[k + 1..];
      assert [s[0]] + (s[1..k + 1] + [x] + s[k + 1..]) == s[..k + 1] + [x] + s[k + 1..];
    }
  }

  /** What became of an insertion: it was refused, it was done, or it followed a null link. */
  datatype Outcome = Rejected | Inserted | NullLink

  /** The fields of a node. */
  datatype Links = Links(
    parent: XmlNode?, prev: XmlNode?, next: XmlNode?,
    firstChild: XmlNode?, lastChild: XmlNode?, ghost children: seq<XmlNode>)

  type State = map<XmlNode, Links>

  ghost function Nth(s: seq<XmlNode>, i: int): XmlNode? {
    if 0 <= i < |s| then s[i] else null
  }

  /** The links of n's children, and of n to them, are those of a doubly linked list. */
  ghost predicate Linked(m: State, n: XmlNode)
    requires n in m
  {
    var s := m[n].children;
    && Distinct(s)
    && m[n].firstChild == Nth(s, 0) && m[n].lastChild == Nth(s, |s| - 1)
    && forall i :: 0 <= i < |s| ==>
      && s[i] in m && m[s[i]].parent == n
      && m[s[i]].prev == Nth(s, i - 1) && m[s[i]].next == Nth(s, i + 1)
  }

  /** n is in the list of the parent it names. */
  ghost predicate Placed(m: State, n: XmlNode)
    requires n in m
  {
    var p := m[n].parent;
    if p == null then m[n].prev == null && m[n].next == null
    else p != n && p in m && n in m[p].children
  }

  ghost predicate WellFormed(m: State) {
    forall n :: n in m ==> Linked(m, n) && Placed(m, n)
  }

  // ---------------------------------------------------------------- the state after Unlink

  /** The links of n after c has been taken out of p's list. */
  ghost function UnlinkedLinks(m: State, p: XmlNode, c: XmlNode, n: XmlNode): Links
    requires p in m && c in m && n in m
  {
    Links(
      if n == c then null else m[n].parent,
      if n == c then null else if n == m[c].next then m[c].prev else m[n].prev,
      if n == c then null else if n == m[c].prev then m[c].next else m[n].next,
      if n == p && m[p].firstChild == c then m[c].next else m[n].firstChild,
      if n == p && m[p].lastChild == c then m[c].prev else m[n].lastChild,
      if n == p then Without(m[n].children, c) else m[n].children)
  }

  /** The links of n when c's neighbours have been linked to each other. */
  ghost function SkippedLinks(m: State, p: XmlNode, c: XmlNode, n: XmlNode): Links
    requires p in m && c in m && n in m
  {
    Links(
      m[n].parent,
      if n == m[c].next then m[c].prev else m[n].prev,
      if n == m[c].prev then m[c].next else m[n].next,
      if n == p && m[p].firstChild == c then m[c].next else m[n].firstChild,
      if n == p && m[p].lastChild == c then m[c].prev else m[n].lastChild,
      m[n].children)
  }

  ghost function Unlinked(m: State, p: XmlNode, c: XmlNode): State
    requires p in m && c in m
  {
    map n | n in m :: UnlinkedLinks(m, p, c, n)
  }

  lemma UnlinkedAt(m: State, p: XmlNode, c: XmlNode, n: XmlNode)
    requires p in m && c in m && n in m
    ensures var m' := Unlinked(m, p, c);
      && n in m'
      && m'[n].children == (if n == p then Without(m[n].children, c) else m[n].children)
      && m'[n].firstChild == (if n == p && m[p].firstChild == c then m[c].next else m[n].firstChild)
      && m'[n].lastChild == (if n == p && m[p].lastChild == c then m[c].prev else m[n].lastChild)
      && m'[n].parent == (if n == c then null else m[n].parent)
      && m'[n].next == (if n == c then null else if n == m[c].prev then m[c].next else m[n].next)
      && m'[n].prev == (if n == c then null else if n == m[c].next then m[c].prev else m[n].prev)
  {
    hide Without;
  }

  /** The list of another node has no node whose links changed. */
  lemma UnlinkOther(m: State, p: XmlNode, c: XmlNode, q: XmlNode)
    requires p in m && c in m && q in m && q != p && p != c && m[c].parent == p
    requires Linked(m, q)
    requires m[c].prev != null ==> m[c].prev in m && m[m[c].prev].parent == p
    requires m[c].next != null ==> m[c].next in m && m[m[c].next].parent == p
    ensures q in Unlinked(m, p, c) && Linked(Unlinked(m, p, c), q)
  {
    hide Unlinked, Without;
    var s := m[q].children;
    UnlinkedAt(m, p, c, q);
    forall i | 0 <= i < |s|
      ensures s[i] in Unlinked(m, p, c)
      ensures var l := Unlinked(m, p, c)[s[i]];
        l.parent == q && l.prev == Nth(s, i - 1) && l.next == Nth(s, i + 1)
    {
      UnlinkedAt(m, p, c, s[i]);
    }
  }

  lemma DistinctAt<T>(s: seq<T>, i: nat, j: nat)
    requires Distinct(s) && i < |s| && j < |s|
    ensures s[i] == s[j] <==> i == j
  {
  }

  /** The links of the child that comes i-th once the k-th is gone. */
  lemma UnlinkSameAt(m: State, p: XmlNode, k: nat, i: nat)
    requires p in m && k < |m[p].children| && i < |m[p].children| - 1 && Linked(m, p)
    requires m[p].parent != p && m[p].children[k] != p
    ensures var s := m[p].children;
            var t := s[..k] + s[k + 1..];
            var m' := Unlinked(m, p, s[k]);
      t[i] in m' && m'[t[i]].parent == p && m'[t[i]].prev == Nth(t, i - 1) && m'[t[i]].next == Nth(t, i + 1)
  {
    hide Unlinked, UnlinkedLinks, Without, Distinct, Linked, Nth;
    var s := m[p].children;
    var c := s[k];
    var j := if i < k then i else i + 1;
    NthWithout(s, k, i);
    LinkedAt(m, p, j);
    LinkedAt(m, p, k);
    UnlinkedAt(m, p, c, s[j]);
    DistinctAt(s, j, k);
    NeighbourOnly(s, j, k);
  }

  /** Where the elements of s are found once the k-th is gone. */
  lemma NthWithout(s: seq<XmlNode>, k: nat, i: nat)
    requires k < |s| && i < |s| - 1
    ensures var t, j := s[..k] + s[k + 1..], if i < k then i else i + 1;
      && t[i] == s[j]
      && Nth(t, i - 1) == (if j - 1 == k then Nth(s, k - 1) else Nth(s, j - 1))
      && Nth(t, i + 1) == (if j + 1 == k then Nth(s, k + 1) else Nth(s, j + 1))
  {
  }

  /** The j-th element is next to the k-th if and only if the numbers are. */
  lemma NeighbourOnly(s: seq<XmlNode>, j: nat, k: nat)
    requires Distinct(s) && j < |s| && k < |s|
    ensures s[j] == Nth(s, k + 1) <==> j == k + 1
    ensures s[j] == Nth(s, k - 1) <==> j == k - 1
  {
  }

  lemma LinkedAt(m: State, n: XmlNode, i: nat)
    requires n in m && Linked(m, n) && i < |m[n].children|
    ensures var s := m[n].children;
      && Distinct(s) && s[i] in m && m[s[i]].parent == n
      && m[s[i]].prev == Nth(s, i - 1) && m[s[i]].next == Nth(s, i + 1)
  {
    hide Nth, Distinct;
  }

  /** What the ends of s are once the k-th element is gone. */
  lemma EndsWithout(s: seq<XmlNode>, k: nat)
    requires Distinct(s) && k < |s|
    ensures var t := s[..k] + s[k + 1..];
      && Nth(t, 0) == (if Nth(s, 0) == s[k] then Nth(s, k + 1) else Nth(s, 0))
      && Nth(t, |t| - 1) == (if Nth(s, |s| - 1) == s[k] then Nth(s, k - 1) else Nth(s, |s| - 1))
  {
    DistinctAt(s, 0, k);
    DistinctAt(s, |s| - 1, k);
  }

  lemma UnlinkSame(m: State, p: XmlNode, k: nat)
    requires p in m && k < |m[p].children| && Linked(m, p)
    requires m[p].parent != p && m[p].children[k] != p
    ensures var m' := Unlinked(m, p, m[p].children[k]); p in m' && Linked(m', p)
  {
    hide Unlinked, UnlinkedLinks, Without, Nth, Distinct;
    var s := m[p].children;
    var c := s[k];
    WithoutIs(s, k);
    UnlinkedAt(m, p, c, p);
    var t := s[..k] + s[k + 1..];
    LinkedAt(m, p, k);
    EndsWithout(s, k);
    DistinctWithout(s, k);
    forall i | 0 <= i < |t|
      ensures t[i] in Unlinked(m, p, c)
      ensures var l := Unlinked(m, p, c)[t[i]];
        l.parent == p && l.prev == Nth(t, i - 1) && l.next == Nth(t, i + 1)
    {
      UnlinkSameAt(m, p, k, i);
    }
  }

  lemma DistinctWithout<T>(s: seq<T>, k: nat)
    requires Distinct(s) && k < |s|
    ensures Distinct(s[..k] + s[k + 1..])
  {
  }

  lemma UnlinkPlaces(m: State, p: XmlNode, c: XmlNode, n: XmlNode)
    requires p in m && c in m && p != c && n in m && Placed(m, n)
    requires m[c].prev != null ==> m[c].prev in m && m[m[c].prev].parent == p
    requires m[c].next != null ==> m[c].next in m && m[m[c].next].parent == p
    ensures n in Unlinked(m, p, c) && Placed(Unlinked(m, p, c), n)
  {
    hide Unlinked, Without;
    UnlinkedAt(m, p, c, n);
    if m[n].parent != null {
      UnlinkedAt(m, p, c, m[n].parent);
    }
  }

  /** A child's neighbours are children of the same node. */
  lemma Neighbours(m: State, p: XmlNode, c: XmlNode)
    requires p in m && c in m[p].children && Linked(m, p)
    ensures c in m && m[c].parent == p
    ensures m[c].prev != null ==> m[c].prev in m && m[m[c].prev].parent == p
    ensures m[c].next != null ==> m[c].next in m && m[m[c].next].parent == p
  {
    var k :| 0 <= k < |m[p].children| && m[p].children[k] == c;
  }

  lemma UnlinkKeeps(m: State, p: XmlNode, c: XmlNode)
    requires WellFormed(m) && p in m && c in m[p].children
    ensures c in m && c != p && WellFormed(Unlinked(m, p, c))
  {
    hide Linked, Without;
    Neighbours(m, p, c);
    assert Placed(m, c) && Placed(m, p);
    var k :| 0 <= k < |m[p].children| && m[p].children[k] == c;
    UnlinkSame(m, p, k);
    forall n | n in m ensures Linked(Unlinked(m, p, c), n) && Placed(Unlinked(m, p, c), n) {
      UnlinkPlaces(m, p, c, n);
      if n != p {
        UnlinkOther(m, p, c, n);
      }
    }
  }

  // ---------------------------------------------------------------- the state after an insertion

  /** s with x put in front of position k. */
  ghost function InsertedAt(s: seq<XmlNode>, k: nat, x: XmlNode): seq<XmlNode>
    requires k <= |s|
  {
    s[..k] + [x] + s[k..]
  }

  /** The links of n after the detached node c has become the k-th child of p. */
  ghost function AttachedLinks(m: State, p: XmlNode, c: XmlNode, k: nat, n: XmlNode): Links
    requires p in m && c in m && n in m && k <= |m[p].children|
  {
    var s := m[p].children;
    Links(
      if n == c then p else m[n].parent,
      if n == c then Nth(s, k - 1) else if n == Nth(s, k) then c else m[n].prev,
      if n == c then Nth(s, k) else if n == Nth(s, k - 1) then c else m[n].next,
      if n == p && k == 0 then c else m[n].firstChild,
      if n == p && k == |s| then c else m[n].lastChild,
      if n == p then InsertedAt(s, k, c) else m[n].children)
  }

  ghost function Attached(m: State, p: XmlNode, c: XmlNode, k: nat): State
    requires p in m && c in m && k <= |m[p].children|
  {
    map n | n in m :: AttachedLinks(m, p, c, k, n)
  }

  lemma AttachedAt(m: State, p: XmlNode, c: XmlNode, k: nat, n: XmlNode)
    requires p in m && c in m && n in m && k <= |m[p].children|
    ensures var m', s := Attached(m, p, c, k), m[p].children;
      && n in m'
      && m'[n].children == (if n == p then InsertedAt(s, k, c) else m[n].children)
      && m'[n].firstChild == (if n == p && k == 0 then c else m[n].firstChild)
      && m'[n].lastChild == (if n == p && k == |s| then c else m[n].lastChild)
      && m'[n].parent == (if n == c then p else m[n].parent)
      && m'[n].prev == (if n == c then Nth(s, k - 1) else if n == Nth(s, k) then c else m[n].prev)
      && m'[n].next == (if n == c then Nth(s, k) else if n == Nth(s, k - 1) then c else m[n].next)
  {
    hide InsertedAt;
  }

  lemma AttachOther(m: State, p: XmlNode, c: XmlNode, k: nat, q: XmlNode)
    requires p in m && c in m && q in m && q != p && k <= |m[p].children|
    requires m[c].parent == null && Linked(m, p) && Linked(m, q)
    ensures q in Attached(m, p, c, k) && Linked(Attached(m, p, c, k), q)
  {
    hide Attached, AttachedLinks;
    var s := m[q].children;
    AttachedAt(m, p, c, k, q);
    forall i | 0 <= i < |s|
      ensures s[i] in Attached(m, p, c, k)
      ensures var l := Attached(m, p, c, k)[s[i]];
        l.parent == q && l.prev == Nth(s, i - 1) && l.next == Nth(s, i + 1)
    {
      AttachedAt(m, p, c, k, s[i]);
    }
  }

  lemma InsertedSpots(s: seq<XmlNode>, k: nat, x: XmlNode, i: int)
    requires k <= |s|
    ensures |InsertedAt(s, k, x)| == |s| + 1
    ensures Nth(InsertedAt(s, k, x), i) == if i < k then Nth(s, i) else if i == k then x else Nth(s, i - 1)
  {
  }

  lemma AttachSameAt(m: State, p: XmlNode, c: XmlNode, k: nat, i: nat)
    requires p in m && c in m && k <= |m[p].children| && i <= |m[p].children|
    requires p != c && m[c].parent == null && Linked(m, p)
    ensures var t, m' := InsertedAt(m[p].children, k, c), Attached(m, p, c, k);
      t[i] in m' && m'[t[i]].parent == p && m'[t[i]].prev == Nth(t, i - 1) && m'[t[i]].next == Nth(t, i + 1)
  {
    hide Attached, AttachedLinks, Distinct, InsertedAt, Linked;
    var s := m[p].children;
    InsertedSpots(s, k, c, i - 1);
    InsertedSpots(s, k, c, i);
    InsertedSpots(s, k, c, i + 1);
    if i == k {
      AttachedAt(m, p, c, k, c);
    } else {
      AttachOldAt(m, p, c, k, if i < k then i else i - 1);
    }
  }

  /** The links of the child that was the j-th. */
  lemma AttachOldAt(m: State, p: XmlNode, c: XmlNode, k: nat, j: nat)
    requires p in m && c in m && k <= |m[p].children| && j < |m[p].children|
    requires p != c && m[c].parent == null && Linked(m, p)
    ensures var s, m' := m[p].children, Attached(m, p, c, k);
      && s[j] in m' && s[j] != c && m'[s[j]].parent == p
      && m'[s[j]].prev == (if j == k then c else Nth(s, j - 1))
      && m'[s[j]].next == (if j + 1 == k then c else Nth(s, j + 1))
  {
    hide Attached, AttachedLinks, Distinct, InsertedAt;
    var s := m[p].children;
    AttachedAt(m, p, c, k, s[j]);
    if k > 0 { DistinctAt(s, j, k - 1); }
    if k < |s| { DistinctAt(s, j, k); }
  }

  lemma AttachSame(m: State, p: XmlNode, c: XmlNode, k: nat)
    requires p in m && c in m && k <= |m[p].children|
    requires p != c && m[c].parent == null && Linked(m, p)
    ensures p in Attached(m, p, c, k) && Linked(Attached(m, p, c, k), p)
  {
    hide Attached, AttachedLinks, InsertedAt, Nth, Distinct;
    var s := m[p].children;
    AttachedAt(m, p, c, k, p);
    var t := InsertedAt(s, k, c);
    forall i | 0 <= i < |s| ensures s[i] != c {
      LinkedAt(m, p, i);
    }
    DistinctInserted(s, k, c);
    InsertedSpots(s, k, c, 0);
    InsertedSpots(s, k, c, |s|);
    forall i | 0 <= i < |t|
      ensures t[i] in Attached(m, p, c, k)
      ensures var l := Attached(m, p, c, k)[t[i]];
        l.parent == p && l.prev == Nth(t, i - 1) && l.next == Nth(t, i + 1)
    {
      AttachSameAt(m, p, c, k, i);
    }
  }

  lemma DistinctInserted(s: seq<XmlNode>, k: nat, x: XmlNode)
    requires Distinct(s) && k <= |s| && forall i :: 0 <= i < |s| ==> s[i] != x
    ensures Distinct(InsertedAt(s, k, x))
  {
  }

  lemma InsertedHas(s: seq<XmlNode>, k: nat, c: XmlNode)
    requires k <= |s|
    ensures c in InsertedAt(s, k, c) && forall x :: x in s ==> x in InsertedAt(s, k, c)
  {
    assert InsertedAt(s, k, c)[k] == c;
    forall x | x in s ensures x in InsertedAt(s, k, c) {
      var j :| 0 <= j < |s| && s[j] == x;
      assert InsertedAt(s, k, c)[if j < k then j else j + 1] == x;
    }
  }

  lemma AttachPlaces(m: State, p: XmlNode, c: XmlNode, k: nat, n: XmlNode)
    requires p in m && c in m && n in m && k <= |m[p].children|
    requires p != c && m[c].parent == null && Linked(m, p) && Placed(m, n)
    ensures n in Attached(m, p, c, k) && Placed(Attached(m, p, c, k), n)
  {
    hide Attached, AttachedLinks, InsertedAt, Distinct;
    AttachedAt(m, p, c, k, n);
    AttachedAt(m, p, c, k, p);
    InsertedHas(m[p].children, k, c);
    if n != c && m[n].parent != null {
      AttachedAt(m, p, c, k, m[n].parent);
    }
  }

  /** Attaching a detached node keeps every list of the document well formed. */
  lemma AttachKeeps(m: State, p: XmlNode, c: XmlNode, k: nat)
    requires WellFormed(m) && p in m && c in m && p != c && m[c].parent == null && k <= |m[p].children|
    ensures WellFormed(Attached(m, p, c, k))
  {
    hide Linked, Placed, InsertedAt;
    AttachSame(m, p, c, k);
    forall n | n in m ensures Linked(Attached(m, p, c, k), n) && Placed(Attached(m, p, c, k), n) {
      AttachPlaces(m, p, c, k, n);
      if n != p {
        AttachOther(m, p, c, k, n);
      }
    }
  }

  /** InsertChildPreamble: c is taken out of the list it is in, if any. */
  ghost function Detached(m: State, c: XmlNode): State
    requires c in m && (m[c].parent != null ==> m[c].parent in m)
  {
    if m[c].parent == null then m else Unlinked(m, m[c].parent, c)
  }

  /** Detaching takes c out of whichever list it was in, and changes no other list. */
  lemma DetachKeeps(m: State, c: XmlNode)
    requires WellFormed(m) && c in m
    ensures m[c].parent != null ==> m[c].parent in m
    ensures var d := Detached(m, c);
      && WellFormed(d) && d.Keys == m.Keys && d[c].parent == null
      && forall n :: n in m ==> d[n].children == Without(m[n].children, c)
  {
    hide Linked, Without;
    assert Placed(m, c);
    var p := m[c].parent;
    if p != null {
      UnlinkKeeps(m, p, c);
      UnlinkedAt(m, p, c, c);
    }
    forall n | n in m ensures n in Detached(m, c) && Detached(m, c)[n].children == Without(m[n].children, c) {
      if p != null {
        UnlinkedAt(m, p, c, n);
      }
      if n != p {
        NotAChild(m, n, c);
      }
    }
  }

  lemma NotAChild(m: State, n: XmlNode, c: XmlNode)
    requires n in m && c in m && WellFormed(m) && m[c].parent != n
    ensures c !in m[n].children && Without(m[n].children, c) == m[n].children
  {
    assert Linked(m, n);
  }

  class XmlNode {
    const document: nat
    var parent: XmlNode?
    var prev: XmlNode?
    var next: XmlNode?
    var firstChild: XmlNode?
    var lastChild: XmlNode?
    ghost var children: seq<XmlNode>

    constructor (document: nat)
      ensures this.document == document && Fields() == Links(null, null, null, null, null, [])
    {
      this.document := document;
      parent, prev, next, firstChild, lastChild := null, null, null, null, null;
      children := [];
    }

    ghost function Fields(): Links
      reads this
    {
      Links(parent, prev, next, firstChild, lastChild, children)
    }

    static ghost function StateOf(all: set<XmlNode>): State
      reads all
    {
      map n | n in all :: n.Fields()
    }

    method Unlink(child: XmlNode, ghost all: set<XmlNode>)
      requires WellFormed(StateOf(all)) && this in all && child in children
      modifies all
      ensures child in all && StateOf(all) == Unlinked(old(StateOf(all)), this, child)
    {
      hide Without, WellFormed, Linked, StateOf, Unlinked, UnlinkedLinks, SkippedLinks;
      ghost var m := StateOf(all);
      StateAt(all);
      Surroundings(m, this, child);
      assert child != this;
      SkipOver(child, all);
      label Skipped:
      child.next := null;
      child.prev := null;
      child.parent := null;
      children := Without(children, child);
      StateAt(all);
      forall n | n in all ensures n.Fields() == UnlinkedLinks(m, this, child, n) {
        assert old@Skipped(n.Fields()) == SkippedLinks(m, this, child, n);
        SkippedIs(m, this, child, n);
        UnlinkedFields(m, this, child, n);
      }
      UnlinkedIs(m, this, child);
    }

    /** The first half of Unlink: the ends of the list and the child's neighbours step over it. */
    method SkipOver(child: XmlNode, ghost all: set<XmlNode>)
      requires WellFormed(StateOf(all)) && this in all && child in children && child in all
      modifies all
      ensures forall n :: n in all ==> n.Fields() == SkippedLinks(old(StateOf(all)), this, child, n)
    {
      hide WellFormed, Linked, StateOf, SkippedLinks;
      ghost var m := StateOf(all);
      StateAt(all);
      Surroundings(m, this, child);
      if child == firstChild {
        firstChild := firstChild.next;
      }
      if child == lastChild {
        lastChild := lastChild.prev;
      }
      if child.prev != null {
        child.prev.next := child.next;
      }
      if child.next != null {
        child.next.prev := child.prev;
      }
      forall n | n in all ensures n.Fields() == SkippedLinks(m, this, child, n) {
        assert m[n] == old(n.Fields());
        SkippedIs(m, this, child, n);
        if n == this || n == child {
        } else if n == m[child].prev || n == m[child].next {
        }
      }
    }

    static lemma SkippedIs(m: State, p: XmlNode, c: XmlNode, n: XmlNode)
      requires p in m && c in m && n in m
      ensures SkippedLinks(m, p, c, n) == Links(
        m[n].parent,
        if n == m[c].next then m[c].prev else m[n].prev,
        if n == m[c].prev then m[c].next else m[n].next,
        if n == p && m[p].firstChild == c then m[c].next else m[n].firstChild,
        if n == p && m[p].lastChild == c then m[c].prev else m[n].lastChild,
        m[n].children)
    {
    }

    method InsertChildPreamble(insertThis: XmlNode, ghost all: set<XmlNode>)
      requires WellFormed(StateOf(all)) && this in all && insertThis in all
      modifies all
      ensures insertThis.parent == null && WellFormed(StateOf(all))
      ensures old(insertThis.parent) != null ==> old(insertThis.parent) in all
      ensures StateOf(all) == Detached(old(StateOf(all)), insertThis)
      ensures forall n :: n in all ==> n.children == Without(old(n.children), insertThis)
    {
      hide WellFormed, Without, Linked;
      ghost var m := StateOf(all);
      DetachKeeps(m, insertThis);
      PlacedAt(m, insertThis);
      StateAt(all);
      if insertThis.parent != null {
        insertThis.parent.Unlink(insertThis, all);
        StateAt(all);
      }
    }

    static lemma PlacedAt(m: State, c: XmlNode)
      requires WellFormed(m) && c in m
      ensures Placed(m, c)
    {
    }

    /** The part of InsertEndChild that links a detached node in. */
    method LinkAtEnd(addThis: XmlNode, ghost all: set<XmlNode>)
      requires WellFormed(StateOf(all)) && this in all && addThis in all && addThis != this
      requires addThis.parent == null
      modifies all
      ensures StateOf(all) == Attached(old(StateOf(all)), this, addThis, old(|children|))
    {
      hide WellFormed, Linked, StateOf, AttachedLinks, Attached;
      ghost var m := StateOf(all);
      StateAt(all);
      EndsOf(m, this);
      NotItsOwnChild(m, this, addThis);
      ghost var k := |children|;
      if lastChild != null {
        lastChild.next := addThis;
        addThis.prev := lastChild;
        lastChild := addThis;
        addThis.next := null;
      } else {
        firstChild, lastChild := addThis, addThis;
        addThis.prev := null;
        addThis.next := null;
      }
      addThis.parent := this;
      children := InsertedAt(children, k, addThis);
      StateAt(all);
      forall n | n in all ensures n.Fields() == AttachedLinks(m, this, addThis, k, n) {
        assert m[n] == old(n.Fields());
        AttachedFields(m, this, addThis, k, n);
        if n == this || n == addThis {
        }
      }
      AttachedIs(m, this, addThis, k);
    }

    method InsertEndChild(addThis: XmlNode, ghost all: set<XmlNode>) returns (r: Outcome)
      requires WellFormed(StateOf(all)) && this in all && addThis in all && addThis != this
      modifies all
      ensures WellFormed(StateOf(all))
      ensures r == if addThis.document != document then Rejected else Inserted
      ensures r == Rejected ==> StateOf(all) == old(StateOf(all))
      ensures r == Inserted ==> children == Without(old(children), addThis) + [addThis]
      ensures r == Inserted ==> forall n :: n in all && n != this ==> n.children == Without(old(n.children), addThis)
    {
      hide WellFormed, Without, StateOf, Attached;
      if addThis.document != document {
        return Rejected;
      }
      InsertChildPreamble(addThis, all);
      ghost var m := StateOf(all);
      StateAt(all);
      ghost var k := |children|;
      LinkAtEnd(addThis, all);
      AttachKeeps(m, this, addThis, k);
      AttachedIs(m, this, addThis, k);
      StateAt(all);
      return Inserted;
    }

    /** The part of InsertFirstChild that links a detached node in. */
    method LinkAtFront(addThis: XmlNode, ghost all: set<XmlNode>)
      requires WellFormed(StateOf(all)) && this in all && addThis in all && addThis != this
      requires addThis.parent == null && addThis.next == null
      modifies all
      ensures StateOf(all) == Attached(old(StateOf(all)), this, addThis, 0)
    {
      hide WellFormed, Linked, StateOf, AttachedLinks, Attached;
      ghost var m := StateOf(all);
      StateAt(all);
      EndsOf(m, this);
      NotItsOwnChild(m, this, addThis);
      if firstChild != null {
        firstChild.prev := addThis;
        addThis.next := firstChild;
        firstChild := addThis;
        addThis.prev := null;
      } else {
        firstChild, lastChild := addThis, addThis;
        addThis.prev := null;
        addThis.next := null;
      }
      addThis.parent := this;
      children := InsertedAt(children, 0, addThis);
      StateAt(all);
      forall n | n in all ensures n.Fields() == AttachedLinks(m, this, addThis, 0, n) {
        assert m[n] == old(n.Fields());
        AttachedFields(m, this, addThis, 0, n);
        if n == this || n == addThis {
        }
      }
      AttachedIs(m, this, addThis, 0);
    }

    method InsertFirstChild(addThis: XmlNode, ghost all: set<XmlNode>) returns (r: Outcome)
      requires WellFormed(StateOf(all)) && this in all && addThis in all && addThis != this
      modifies all
      ensures WellFormed(StateOf(all))
      ensures r == if addThis.document != document then Rejected else Inserted
      ensures r == Rejected ==> StateOf(all) == old(StateOf(all))
      ensures r == Inserted ==> children == [addThis] + Without(old(children), addThis)
      ensures r == Inserted ==> forall n :: n in all && n != this ==> n.children == Without(old(n.children), addThis)
    {
      hide WellFormed, Without, StateOf, Attached;
      if addThis.document != document {
        return Rejected;
      }
      InsertChildPreamble(addThis, all);
      ghost var m := StateOf(all);
      StateAt(all);
      PlacedAt(m, addThis);
      LinkAtFront(addThis, all);
      AttachKeeps(m, this, addThis, 0);
      AttachedIs(m, this, addThis, 0);
      StateAt(all);
      assert children == [] + [addThis] + m[this].children;
      return Inserted;
    }

    /** The part of InsertAfterChild that links a detached node in behind the j-th child, when
        that is not the last. */
    method LinkAfter(afterThis: XmlNode, addThis: XmlNode, ghost j: nat, ghost all: set<XmlNode>)
      requires WellFormed(StateOf(all)) && this in all && addThis in all && addThis != this
      requires addThis.parent == null && j < |children| && children[j] == afterThis && afterThis.next != null
      modifies all
      ensures StateOf(all) == Attached(old(StateOf(all)), this, addThis, j + 1)
    {
      hide WellFormed, Linked, StateOf, AttachedLinks, Attached;
      ghost var m := StateOf(all);
      StateAt(all);
      ChildAt(m, this, j);
      NotItsOwnChild(m, this, addThis);
      ghost var k := j + 1;
      ghost var follower := afterThis.next;
      addThis.prev := afterThis;
      addThis.next := afterThis.next;
      afterThis.next.prev := addThis;
      afterThis.next := addThis;
      addThis.parent := this;
      children := InsertedAt(children, k, addThis);
      StateAt(all);
      forall n | n in all ensures n.Fields() == AttachedLinks(m, this, addThis, k, n) {
        assert m[n] == old(n.Fields());
        AttachedFields(m, this, addThis, k, n);
        if n == this || n == addThis {
        } else if n == afterThis || n == follower {
        }
      }
      AttachedIs(m, this, addThis, k);
    }

    /** The j-th child: its neighbours in the list are its neighbours by its links. */
    static lemma ChildAt(m: State, p: XmlNode, j: nat)
      requires WellFormed(m) && p in m && j < |m[p].children|
      ensures var s := m[p].children;
        && s[j] in m && s[j] != p && m[s[j]].parent == p && m[s[j]].next == Nth(s, j + 1)
        && (j + 1 < |s| ==> s[j + 1] in m && s[j + 1] != p && s[j + 1] != s[j])
    {
      assert Linked(m, p) && Placed(m, p);
    }

    /** If afterThis is the last child once addThis is detached, the source follows a null link.
        That is so exactly if addThis was the last child, right behind afterThis. */
    method InsertAfterChild(afterThis: XmlNode, addThis: XmlNode, ghost all: set<XmlNode>) returns (r: Outcome)
      requires WellFormed(StateOf(all)) && this in all && afterThis in all && addThis in all && addThis != this
      modifies all
      ensures WellFormed(StateOf(all))
      ensures r == Rejected <==> addThis.document != document || old(afterThis.parent) != this
      ensures r == NullLink <==>
        r != Rejected && afterThis != addThis && old(afterThis.next) == addThis && old(addThis.next) == null
      ensures r == Rejected || afterThis == addThis ==> StateOf(all) == old(StateOf(all))
      ensures r == Inserted && afterThis != addThis ==>
        children == InsertedAfter(Without(old(children), addThis), afterThis, addThis)
      ensures r == Inserted && afterThis != addThis ==>
        forall n :: n in all && n != this ==> n.children == Without(old(n.children), addThis)
    {
      hide WellFormed, Without, InsertedAfter, StateOf, Attached, Linked;
      if addThis.document != document || afterThis.parent != this {
        return Rejected;
      }
      if afterThis == addThis {
        return Inserted;
      }
      ghost var before := StateOf(all);
      StateAt(all);
      ghost var i := IndexOf(before, this, afterThis);
      if afterThis.next == null {
        ChildAt(before, this, i);
        r := InsertEndChild(addThis, all);
        DistinctChildren(before, this);
        LastStaysLast(old(children), addThis);
        return;
      }
      r := InsertInside(afterThis, addThis, all);
    }

    /** InsertAfterChild when afterThis has a node behind it. */
    method InsertInside(afterThis: XmlNode, addThis: XmlNode, ghost all: set<XmlNode>) returns (r: Outcome)
      requires WellFormed(StateOf(all)) && this in all && afterThis in all && addThis in all && addThis != this
      requires afterThis.parent == this && afterThis != addThis && afterThis.next != null
      modifies all
      ensures WellFormed(StateOf(all)) && r != Rejected
      ensures r == NullLink <==> old(afterThis.next) == addThis && old(addThis.next) == null
      ensures r == Inserted ==> children == InsertedAfter(Without(old(children), addThis), afterThis, addThis)
      ensures r == Inserted ==> forall n :: n in all && n != this ==> n.children == Without(old(n.children), addThis)
    {
      hide WellFormed, Without, InsertedAfter, StateOf, Attached, Linked, Detached;
      ghost var before := StateOf(all);
      StateAt(all);
      DetachedNext(before, this, afterThis, addThis);
      InsertChildPreamble(addThis, all);
      ghost var m := StateOf(all);
      StateAt(all);
      if afterThis.next == null {
        return NullLink;
      }
      LinkBehind(afterThis, addThis, all);
      return Inserted;
    }

    /** The end of InsertAfterChild, with a node that is in no list. */
    method LinkBehind(afterThis: XmlNode, addThis: XmlNode, ghost all: set<XmlNode>)
      requires WellFormed(StateOf(all)) && this in all && afterThis in all && addThis in all && addThis != this
      requires afterThis.parent == this && afterThis.next != null && addThis.parent == null
      modifies all
      ensures WellFormed(StateOf(all)) && children == InsertedAfter(old(children), afterThis, addThis)
      ensures forall n :: n in all && n != this ==> n.children == old(n.children)
    {
      hide WellFormed, InsertedAfter, StateOf, Attached, Linked;
      ghost var m := StateOf(all);
      StateAt(all);
      ghost var j := IndexOf(m, this, afterThis);
      LinkAfter(afterThis, addThis, j, all);
      AttachKeeps(m, this, addThis, j + 1);
      AttachedIs(m, this, addThis, j + 1);
      StateAt(all);
      Behind(m, this, j, addThis);
    }

    static lemma IndexOf(m: State, p: XmlNode, c: XmlNode) returns (i: nat)
      requires WellFormed(m) && p in m && c in m && m[c].parent == p
      ensures i < |m[p].children| && m[p].children[i] == c
    {
      assert Placed(m, c);
      i :| 0 <= i < |m[p].children| && m[p].children[i] == c;
    }

    static lemma Behind(m: State, p: XmlNode, j: nat, x: XmlNode)
      requires WellFormed(m) && p in m && j < |m[p].children|
      ensures var s := m[p].children; InsertedAfter(s, s[j], x) == InsertedAt(s, j + 1, x)
    {
      assert Linked(m, p);
      InsertedAfterIs(m[p].children, j, x);
    }

    static lemma LastStaysLast(s: seq<XmlNode>, x: XmlNode)
      requires Distinct(s) && s != [] && s[|s| - 1] != x
      ensures InsertedAfter(Without(s, x), s[|s| - 1], x) == Without(s, x) + [x]
    {
      hide InsertedAfter, Without, Distinct;
      LastWithout(s, x);
      EndInserted(Without(s, x), x);
    }

    static lemma DistinctChildren(m: State, p: XmlNode)
      requires WellFormed(m) && p in m
      ensures Distinct(m[p].children)
    {
      hide Distinct;
      assert Linked(m, p);
    }

    static lemma EndInserted(t: seq<XmlNode>, x: XmlNode)
      requires Distinct(t) && t != []
      ensures InsertedAfter(t, t[|t| - 1], x) == t + [x]
    {
      hide InsertedAfter;
      InsertedAfterIs(t, |t| - 1, x);
      assert t[..|t|] + [x] + t[|t|..] == t + [x];
    }

    static lemma LastWithout(s: seq<XmlNode>, x: XmlNode)
      requires Distinct(s) && s != [] && s[|s| - 1] != x
      ensures var t := Without(s, x); Distinct(t) && t != [] && t[|t| - 1] == s[|s| - 1]
    {
      hide Without;
      if x in s {
        var k :| 0 <= k < |s| && s[k] == x;
        WithoutIs(s, k);
        DistinctWithout(s, k);
      }
    }

    /** What is behind a once x is detached. */
    static lemma DetachedNext(m: State, p: XmlNode, a: XmlNode, x: XmlNode)
      requires WellFormed(m) && p in m && a in m && x in m && a != x && m[a].parent == p && m[a].next != null
      ensures m[x].parent != null ==> m[x].parent in m
      ensures var d := Detached(m, x);
        && a in d && d[a].parent == p
        && (d[a].next == null <==> m[a].next == x && m[x].next == null)
    {
      hide Without;
      assert Placed(m, x);
      NextPrev(m, a, x);
      if m[x].parent != null {
        UnlinkedAt(m, m[x].parent, x, a);
      }
    }

    /** The links go both ways. */
    static lemma NextPrev(m: State, a: XmlNode, b: XmlNode)
      requires WellFormed(m) && a in m && b in m
      ensures m[a].next == b <==> m[b].prev == a
    {
      assert Placed(m, a) && Placed(m, b);
      if m[a].next == b {
        var i := IndexOf(m, m[a].parent, a);
        assert Linked(m, m[a].parent);
        assert m[m[a].parent].children[i + 1] == b;
      }
      if m[b].prev == a {
        var i := IndexOf(m, m[b].parent, b);
        assert Linked(m, m[b].parent);
        assert m[m[b].parent].children[i - 1] == a;
      }
    }

    /** A detached node is in no list. */
    static lemma NotItsOwnChild(m: State, p: XmlNode, c: XmlNode)
      requires WellFormed(m) && p in m && c in m && m[c].parent == null
      ensures c !in m[p].children
    {
      assert Linked(m, p);
    }

    static lemma AttachedIs(m: State, p: XmlNode, c: XmlNode, k: nat)
      requires p in m && c in m && k <= |m[p].children|
      ensures Attached(m, p, c, k).Keys == m.Keys
      ensures forall n :: n in m ==> Attached(m, p, c, k)[n] == AttachedLinks(m, p, c, k, n)
    {
    }

    static lemma AttachedFields(m: State, p: XmlNode, c: XmlNode, k: nat, n: XmlNode)
      requires p in m && c in m && n in m && k <= |m[p].children|
      ensures var s := m[p].children;
        AttachedLinks(m, p, c, k, n) == Links(
          if n == c then p else m[n].parent,
          if n == c then Nth(s, k - 1) else if n == Nth(s, k) then c else m[n].prev,
          if n == c then Nth(s, k) else if n == Nth(s, k - 1) then c else m[n].next,
          if n == p && k == 0 then c else m[n].firstChild,
          if n == p && k == |s| then c else m[n].lastChild,
          if n == p then InsertedAt(s, k, c) else m[n].children)
    {
      hide InsertedAt;
    }

    /** A node's ends are its first and last child, which are other nodes. */
    static lemma EndsOf(m: State, p: XmlNode)
      requires WellFormed(m) && p in m
      ensures var s := m[p].children;
        && m[p].firstChild == Nth(s, 0) && m[p].lastChild == Nth(s, |s| - 1)
        && (s != [] ==> s[0] in m.Keys - {p} && s[|s| - 1] in m.Keys - {p})
    {
      assert Linked(m, p) && Placed(m, p);
    }

    static lemma StateAt(all: set<XmlNode>)
      ensures StateOf(all).Keys == all && forall n :: n in all ==> StateOf(all)[n] == n.Fields()
    {
    }

    static lemma UnlinkedIs(m: State, p: XmlNode, c: XmlNode)
      requires p in m && c in m
      ensures Unlinked(m, p, c).Keys == m.Keys
      ensures forall n :: n in m ==> Unlinked(m, p, c)[n] == UnlinkedLinks(m, p, c, n)
    {
      hide Without;
    }

    static lemma UnlinkedFields(m: State, p: XmlNode, c: XmlNode, n: XmlNode)
      requires p in m && c in m && n in m
      ensures UnlinkedLinks(m, p, c, n) == Links(
        if n == c then null else m[n].parent,
        if n == c then null else if n == m[c].next then m[c].prev else m[n].prev,
        if n == c then null else if n == m[c].prev then m[c].next else m[n].next,
        if n == p && m[p].firstChild == c then m[c].next else m[n].firstChild,
        if n == p && m[p].lastChild == c then m[c].prev else m[n].lastChild,
        if n == p then Without(m[n].children, c) else m[n].children)
    {
      hide Without;
    }

    static lemma Surroundings(m: State, p: XmlNode, c: XmlNode)
      requires WellFormed(m) && p in m && c in m[p].children
      ensures c in m && c != p && m[c].parent == p
      ensures m[c].prev != null ==> m[c].prev in m.Keys - {p, c} && m[c].prev != m[c].next
      ensures m[c].next != null ==> m[c].next in m.Keys - {p, c}
      ensures m[p].firstChild == c ==> m[c].prev == null
      ensures m[p].lastChild == c ==> m[c].next == null
    {
      Neighbours(m, p, c);
      assert Placed(m, c) && Placed(m, p) && Linked(m, p);
      hide WellFormed, Linked, Placed;
      var s := m[p].children;
      var k :| 0 <= k < |s| && s[k] == c;
      LinkedAt(m, p, k);
      EndsLinked(m, p);
      Apart(s, k);
    }

    static lemma EndsLinked(m: State, p: XmlNode)
      requires p in m && Linked(m, p)
      ensures m[p].firstChild == Nth(m[p].children, 0) && m[p].lastChild == Nth(m[p].children, |m[p].children| - 1)
    {
    }

    static lemma Apart(s: seq<XmlNode>, k: nat)
      requires Distinct(s) && k < |s|
      ensures Nth(s, k - 1) != s[k] && Nth(s, k + 1) != s[k]
      ensures Nth(s, k - 1) != null ==> Nth(s, k - 1) != Nth(s, k + 1)
      ensures Nth(s, 0) == s[k] ==> Nth(s, k - 1) == null
      ensures Nth(s, |s| - 1) == s[k] ==> Nth(s, k + 1) == null
    {
    }
  }
}

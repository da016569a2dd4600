/** The order in which the setup script sources the packages (install/_local_setup_util_sh.py). */
module PackageOrder {

  type Name = string

  datatype Option<+T> = None | Some(value: T)

  datatype Result<+T, +E> = Ok(value: T) | Err(error: E)

  type Deps = map<Name, set<Name>>

  // ---------------------------------------------------------------- alphabetical order

  predicate AtMost(a: Name, b: Name)
    decreases |a|
  {
    a == [] || (b != [] && (a[0] < b[0] || (a[0] == b[0] && AtMost(a[1..], b[1..]))))
  }

  lemma {:induction false} AtMostTotal(a: Name, b: Name)
    ensures AtMost(a, b) || AtMost(b, a)
    ensures AtMost(a, b) && AtMost(b, a) ==> a == b
    decreases |a|
  {
    if a != [] && b != [] && a[0] == b[0] {
      AtMostTotal(a[1..], b[1..]);
      assert a == [a[0]] + a[1..] && b == [b[0]] + b[1..];
    }
  }

  lemma {:induction false} AtMostTrans(a: Name, b: Name, c: Name)
    requires AtMost(a, b) && AtMost(b, c)
    ensures AtMost(a, c)
    decreases |a|
  {
    if a != [] && a[0] == b[0] == c[0] {
      AtMostTrans(a[1..], b[1..], c[1..]);
    }
  }

  /** Character by character, as in a dictionary: where two names differ first, the lower character
      decides, and what is the beginning of another name comes before it. */
  ghost predicate BeforeAt(a: Name, b: Name, i: nat) {
    i < |a| && i < |b| && a[..i] == b[..i] && a[i] < b[i]
  }

  lemma {:induction false} AtMostIsDictionary(a: Name, b: Name)
    ensures AtMost(a, b) <==> (|a| <= |b| && b[..|a|] == a) || exists i :: BeforeAt(a, b, i)
    decreases |a|
  {
    if a != [] && b != [] && a[0] == b[0] {
      AtMostIsDictionary(a[1..], b[1..]);
      BeforeAtTails(a, b);
      assert |a| <= |b| ==> b[..|a|] == [b[0]] + b[1..][..|a| - 1];
      assert a == [a[0]] + a[1..];
    } else if a != [] && b != [] && a[0] < b[0] {
      assert BeforeAt(a, b, 0);
    } else if a != [] && b != [] {
      forall i: nat ensures !BeforeAt(a, b, i) {
        assert 0 < i < |a| && i < |b| ==> a[..i][0] == a[0] && b[..i][0] == b[0];
      }
    }
  }

  lemma BeforeAtTails(a: Name, b: Name)
    requires a != [] && b != [] && a[0] == b[0]
    ensures (exists i :: BeforeAt(a, b, i)) <==> exists i :: BeforeAt(a[1..], b[1..], i)
  {
    if i: nat :| BeforeAt(a, b, i) {
      assert 0 < i;
      assert a[1..][..i - 1] == a[..i][1..] && b[1..][..i - 1] == b[..i][1..];
      assert BeforeAt(a[1..], b[1..], i - 1);
    }
    if i: nat :| BeforeAt(a[1..], b[1..], i) {
      assert a[..i + 1] == [a[0]] + a[1..][..i] && b[..i + 1] == [b[0]] + b[1..][..i];
      assert BeforeAt(a, b, i + 1);
    }
  }

  /** The first of the names in alphabetical order. */
  function Least(names: seq<Name>): (r: Name)
    requires names != []
    ensures r in names && forall n :: n in names ==> AtMost(r, n)
  {
    var last := names[|names| - 1];
    if |names| == 1 then AtMostTotal(last, last); last
    else
      var rest := names[..|names| - 1];
      var r := Least(rest);
      assert names == rest + [last];
      AtMostTotal(r, last);
      if AtMost(r, last) then r
      else
        assert forall n :: n in rest ==> AtMost(last, n) by {
          forall n | n in rest ensures AtMost(last, n) { AtMostTrans(last, r, n); }
        }
        AtMostTotal(last, last); last
  }

  // ---------------------------------------------------------------- what is wanted

  /** Every dependency is a package. */
  predicate Closed(deps: Deps) {
    forall n :: n in deps ==> deps[n] <= deps.Keys
  }

  function SetOf(names: seq<Name>): set<Name> {
    set n | n in names
  }

  predicate NoRepeats(names: seq<Name>) {
    forall i, j :: 0 <= i < j < |names| ==> names[i] != names[j]
  }

  /** Each package comes after its dependencies. */
  predicate AfterDeps(deps: Deps, order: seq<Name>) {
    forall i :: 0 <= i < |order| ==> order[i] in deps && deps[order[i]] <= SetOf(order[..i])
  }

  predicate Topological(deps: Deps, order: seq<Name>) {
    NoRepeats(order) && SetOf(order) == deps.Keys && AfterDeps(deps, order)
  }

  /** Where a and b differ first, a has the name that comes first. */
  ghost predicate LexAtMost(a: seq<Name>, b: seq<Name>) {
    a == b ||
    exists i :: 0 <= i < |a| && i < |b| && a[..i] == b[..i] && a[i] != b[i] && AtMost(a[i], b[i])
  }

  /** The packages depend on each other in a circle. */
  predicate IsCycle(deps: Deps, path: seq<Name>) {
    && |path| >= 2 && path[0] == path[|path| - 1]
    && forall i :: 0 <= i < |path| - 1 ==> path[i] in deps && path[i + 1] in deps[path[i]]
  }

  /** Each member is a dependency of a member. */
  ghost predicate Supported(deps: Deps, names: set<Name>) {
    names <= deps.Keys && forall n :: n in names ==> exists m :: m in names && n in deps[m]
  }

  ghost predicate GreatestSupported(deps: Deps, names: set<Name>) {
    Supported(deps, names) && forall other :: Supported(deps, other) ==> other <= names
  }

  // ---------------------------------------------------------------- in place

  class Packages {
    var deps: Deps

    constructor (deps: Deps)
      ensures this.deps == deps
    {
      this.deps := deps;
    }

    /** The end of get_packages: what is not a package is no dependency. */
    method RemoveUnknown()
      modifies this
      ensures Closed(deps) && deps.Keys == old(deps.Keys)
      ensures forall n :: n in deps ==> deps[n] == old(deps)[n] * old(deps.Keys)
    {
      var todo := deps.Keys;
      while todo != {}
        invariant todo <= deps.Keys == old(deps.Keys)
        invariant forall n :: n in deps ==> deps[n] == if n in todo then old(deps)[n] else old(deps)[n] * old(deps.Keys)
      {
        var k :| k in todo;
        deps := deps[k := set d | d in deps[k] && d in deps.Keys];
        todo := todo - {k};
      }
    }

    /** The last loop of order_packages. */
    method RemoveDependency(name: Name)
      modifies this
      ensures deps == Without(old(deps), {name})
    {
      var todo := deps.Keys;
      while todo != {}
        invariant todo <= deps.Keys == old(deps.Keys)
        invariant forall n :: n in deps ==> deps[n] == if n in todo then old(deps)[n] else old(deps)[n] - {name}
      {
        var k :| k in todo;
        if name in deps[k] {
          deps := deps[k := deps[k] - {name}];
        }
        todo := todo - {k};
      }
    }

    /** reduce_cycle_set. */
    method ReduceCycleSet()
      modifies this
      ensures GreatestSupported(old(deps), deps.Keys)
      ensures Reducing(old(deps), deps)
    {
      hide Reducing, GreatestSupported, Depended;
      var lastDepended: Option<set<Name>> := None;
      ReducingStarts(deps);
      while |deps| > 0
        invariant Reducing(old(deps), deps)
        invariant lastDepended.Some? ==> Depended(deps) <= lastDepended.value && deps.Keys <= lastDepended.value
        decreases if lastDepended.None? then 1 else 0, if lastDepended.Some? then |lastDepended.value| else 0
      {
        ghost var before := deps;
        assert deps.Keys != {};
        var depended := CollectDepended();
        DropUndepended(depended);
        ReducingPass(old(deps), before, deps);
        if lastDepended.Some? && lastDepended.value != {} {
          if lastDepended.value == depended {
            FixedIsGreatest(old(deps), before, deps);
            return;
          }
          SmallerSet(depended, lastDepended.value);
        }
        lastDepended := Some(depended);
      }
      EmptyIsGreatest(old(deps), deps);
    }

    method CollectDepended() returns (depended: set<Name>)
      ensures depended == Depended(deps)
    {
      depended := {};
      var todo := deps.Keys;
      while todo != {}
        invariant todo <= deps.Keys
        invariant depended == set n, d | n in deps && n !in todo && d in deps[n] :: d
      {
        var k :| k in todo;
        depended := depended + deps[k];
        todo := todo - {k};
      }
    }

    method DropUndepended(depended: set<Name>)
      modifies this
      ensures deps == Restricted(old(deps), depended)
    {
      var todo := deps.Keys;
      while todo != {}
        invariant todo <= old(deps.Keys)
        invariant deps == map n | n in old(deps) && (n in depended || n in todo) :: old(deps)[n]
      {
        var k :| k in todo;
        if k !in depended {
          deps := deps - {k};
        }
        todo := todo - {k};
      }
    }
  }

  /** What some package depends on. */
  function Depended(deps: Deps): set<Name> {
    set n, d | n in deps && d in deps[n] :: d
  }

  function Restricted(deps: Deps, names: set<Name>): Deps {
    map n | n in deps && n in names :: deps[n]
  }

  /** What is left in the course of the reduction: some packages as they were, and among them all
      that depend on each other. */
  ghost predicate Reducing(deps: Deps, current: Deps) {
    && current.Keys <= deps.Keys && (forall n :: n in current ==> current[n] == deps[n])
    && forall other :: Supported(deps, other) ==> other <= current.Keys
  }

  function Without(deps: Deps, done: set<Name>): Deps {
    map n | n in deps :: deps[n] - done
  }

  lemma SmallerSet(a: set<Name>, b: set<Name>)
    requires a <= b
    ensures a == b || |a| < |b|
  {
    if a != b {
      var x :| x in b && x !in a;
      assert a <= b - {x};
      SubsetSize(a, b - {x});
    }
  }

  lemma {:induction false} SubsetSize(a: set<Name>, b: set<Name>)
    requires a <= b
    ensures |a| <= |b|
    decreases a
  {
    if a != {} {
      var x :| x in a;
      SubsetSize(a - {x}, b - {x});
    }
  }

  lemma ReducingStarts(deps: Deps)
    ensures Reducing(deps, deps)
  {
  }

  lemma ReducingPass(deps: Deps, before: Deps, after: Deps)
    requires Reducing(deps, before) && after == Restricted(before, Depended(before))
    ensures Reducing(deps, after) && Depended(after) <= Depended(before) && after.Keys <= Depended(before)
  {
    forall other | Supported(deps, other) ensures other <= after.Keys {
      SupportedStays(deps, before, other);
    }
  }

  /** A supported set survives a pass. */
  lemma SupportedStays(deps: Deps, current: Deps, other: set<Name>)
    requires Supported(deps, other) && other <= current.Keys && current.Keys <= deps.Keys
    requires forall n :: n in current ==> current[n] == deps[n]
    ensures other <= Depended(current)
  {
  }

  lemma FixedIsGreatest(deps: Deps, before: Deps, after: Deps)
    requires Reducing(deps, before) && after == Restricted(before, Depended(before)) && before.Keys <= Depended(before)
    ensures Reducing(deps, after) && GreatestSupported(deps, after.Keys)
  {
    assert after == before;
  }

  lemma EmptyIsGreatest(deps: Deps, current: Deps)
    requires Reducing(deps, current) && |current| == 0
    ensures GreatestSupported(deps, current.Keys)
  {
    assert current.Keys == {};
  }

  // ---------------------------------------------------------------- cycles

  /** Every member depends on a member. */
  ghost predicate Stuck(deps: Deps, names: set<Name>) {
    forall n :: n in names ==> DependsOnOne(deps, names, n)
  }

  ghost predicate DependsOnOne(deps: Deps, names: set<Name>, n: Name) {
    n in deps && exists d :: d in deps[n] && d in names
  }

  predicate IsPath(deps: Deps, path: seq<Name>) {
    forall i :: 0 <= i < |path| - 1 ==> path[i] in deps && path[i + 1] in deps[path[i]]
  }

  lemma Appended(names: seq<Name>, n: Name)
    ensures SetOf(names + [n]) == SetOf(names) + {n}
    ensures NoRepeats(names) && n !in names ==> NoRepeats(names + [n])
    ensures n in names <==> n in SetOf(names)
  {
  }

  lemma ClosesCircle(deps: Deps, path: seq<Name>, d: Name) returns (cycle: seq<Name>)
    requires path != [] && IsPath(deps, path) && path[|path| - 1] in deps && d in deps[path[|path| - 1]] && d in path
    ensures IsCycle(deps, cycle)
  {
    var j :| 0 <= j < |path| && path[j] == d;
    cycle := path[j..] + [d];
  }

  lemma PathGrows(deps: Deps, path: seq<Name>, d: Name)
    requires path != [] && IsPath(deps, path) && path[|path| - 1] in deps && d in deps[path[|path| - 1]]
    ensures IsPath(deps, path + [d])
  {
  }

  lemma DependencyInside(deps: Deps, names: set<Name>, n: Name) returns (d: Name)
    requires DependsOnOne(deps, names, n)
    ensures n in deps && d in deps[n] && d in names
  {
    d :| d in deps[n] && d in names;
  }

  /** Walking from dependency to dependency inside the set comes back to where it was. */
  lemma {:induction false} WalkInCircle(deps: Deps, names: set<Name>, path: seq<Name>) returns (cycle: seq<Name>)
    requires Stuck(deps, names) && path != [] && NoRepeats(path) && SetOf(path) <= names && IsPath(deps, path)
    ensures IsCycle(deps, cycle)
    decreases |names - SetOf(path)|
  {
    hide IsPath, IsCycle, NoRepeats, DependsOnOne;
    var last := path[|path| - 1];
    assert last in SetOf(path);
    assert DependsOnOne(deps, names, last);
    var d := DependencyInside(deps, names, last);
    Appended(path, d);
    if d in path {
      cycle := ClosesCircle(deps, path, d);
    } else {
      PathGrows(deps, path, d);
      assert d in names - SetOf(path);
      assert names - SetOf(path + [d]) == names - SetOf(path) - {d};
      cycle := WalkInCircle(deps, names, path + [d]);
    }
  }

  /** A cycle never contains a package that comes after its dependencies. */
  lemma {:induction false} CycleSpared(deps: Deps, order: seq<Name>, path: seq<Name>)
    requires AfterDeps(deps, order) && IsCycle(deps, path)
    ensures SetOf(order) !! SetOf(path)
    decreases |order|
  {
    if order != [] {
      var init := order[..|order| - 1];
      var last := order[|order| - 1];
      assert forall i :: 0 <= i < |init| ==> order[..i] == init[..i];
      CycleSpared(deps, init, path);
      assert order == init + [last];
      if last in path {
        var i := NextOnCycle(deps, path, last);
        assert false;
      }
      assert SetOf(order) == SetOf(init) + {last};
    }
  }

  lemma NextOnCycle(deps: Deps, path: seq<Name>, n: Name) returns (i: nat)
    requires IsCycle(deps, path) && n in path
    ensures i < |path| && n in deps && path[i] in deps[n]
  {
    var k :| 0 <= k < |path| && path[k] == n;
    i := if k == |path| - 1 then 1 else k + 1;
  }

  lemma PreviousOnCycle(deps: Deps, path: seq<Name>, n: Name) returns (i: nat)
    requires IsCycle(deps, path) && n in path
    ensures i < |path| && path[i] in deps && n in deps[path[i]]
  {
    var k :| 0 <= k < |path| && path[k] == n;
    i := if k == 0 then |path| - 2 else k - 1;
  }

  /** The packages on a cycle depend on each other, also when what was ordered is taken out. */
  lemma CycleSupported(deps: Deps, order: seq<Name>, path: seq<Name>)
    requires AfterDeps(deps, order) && IsCycle(deps, path)
    ensures Supported(Without(deps, SetOf(order)), SetOf(path))
  {
    CycleSpared(deps, order, path);
    var rest := Without(deps, SetOf(order));
    forall n | n in SetOf(path) ensures n in rest && exists m :: m in SetOf(path) && m in rest && n in rest[m] {
      var i := PreviousOnCycle(deps, path, n);
      var j := NextOnCycle(deps, path, n);
      assert path[i] in SetOf(path) && n in rest[path[i]];
    }
  }

  // ---------------------------------------------------------------- the least order

  /** At each place stands the first package, of those left, whose dependencies came before. */
  ghost predicate Greedy(deps: Deps, order: seq<Name>) {
    forall i, n :: 0 <= i < |order| && n in deps && n !in order[..i] && deps[n] <= SetOf(order[..i]) ==>
      AtMost(order[i], n)
  }

  lemma FullPrefixes(a: seq<Name>, b: seq<Name>, i: nat)
    requires |a| == |b| && i <= |a| && a[..i] == b[..i]
    ensures i == |a| ==> a == b
  {
    if i == |a| {
      assert a[..i] == a && b[..i] == b;
    }
  }

  lemma {:induction false} FirstDifference(a: seq<Name>, b: seq<Name>, i: nat) returns (k: nat)
    requires |a| == |b| && i <= |a| && a[..i] == b[..i] && a != b
    ensures k < |a| && a[..k] == b[..k] && a[k] != b[k]
    decreases |a| - i
  {
    if i < |a| && a[i] == b[i] {
      assert a[..i + 1] == a[..i] + [a[i]] && b[..i + 1] == b[..i] + [b[i]];
      k := FirstDifference(a, b, i + 1);
    } else {
      FullPrefixes(a, b, i);
      k := i;
    }
  }

  lemma {:induction false} SizeOfDistinct(names: seq<Name>)
    requires NoRepeats(names)
    ensures |SetOf(names)| == |names|
    decreases |names|
  {
    if names == [] {
      assert SetOf(names) == {};
    } else {
      var init := names[..|names| - 1];
      SizeOfDistinct(init);
      assert SetOf(names) == SetOf(init) + {names[|names| - 1]};
    }
  }

  lemma GreedyIsLeast(deps: Deps, order: seq<Name>, other: seq<Name>)
    requires Topological(deps, order) && Greedy(deps, order) && Topological(deps, other)
    ensures LexAtMost(order, other)
  {
    hide Topological, Greedy, AtMost, NoRepeats, SetOf, LexAtMost;
    SameLength(deps, order, other);
    if order != other {
      var k := FirstDifference(order, other, 0);
      TopologicalAt(deps, other, k);
      GreedyAt(deps, order, k, other[k]);
      LexBy(order, other, k);
    } else {
      LexSame(order);
    }
  }

  lemma SameLength(deps: Deps, a: seq<Name>, b: seq<Name>)
    requires Topological(deps, a) && Topological(deps, b)
    ensures |a| == |b|
  {
    hide AfterDeps;
    SizeOfDistinct(a);
    SizeOfDistinct(b);
  }

  lemma TopologicalAt(deps: Deps, order: seq<Name>, k: nat)
    requires Topological(deps, order) && k < |order|
    ensures order[k] in deps && deps[order[k]] <= SetOf(order[..k]) && order[k] !in order[..k]
  {
    ComesNew(order, k);
  }

  lemma LexBy(a: seq<Name>, b: seq<Name>, k: nat)
    requires k < |a| && k < |b| && a[..k] == b[..k] && a[k] != b[k] && AtMost(a[k], b[k])
    ensures LexAtMost(a, b)
  {
    hide AtMost;
  }

  lemma LexSame(a: seq<Name>)
    ensures LexAtMost(a, a)
  {
  }

  lemma ComesNew(order: seq<Name>, k: nat)
    requires NoRepeats(order) && k < |order|
    ensures order[k] !in order[..k]
  {
  }

  lemma GreedyAt(deps: Deps, order: seq<Name>, i: nat, n: Name)
    requires Greedy(deps, order) && i < |order| && n in deps && n !in order[..i] && deps[n] <= SetOf(order[..i])
    ensures AtMost(order[i], n)
  {
  }

  // ---------------------------------------------------------------- order_packages

  predicate Ready(deps: Deps, name: Name) {
    name in deps && deps[name] == {}
  }

  method NamesWithoutDeps(deps: Deps, names: seq<Name>) returns (r: seq<Name>)
    ensures SetOf(r) == set n | n in names && Ready(deps, n)
  {
    r := [];
    for i := 0 to |names|
      invariant SetOf(r) == set n | n in names[..i] && Ready(deps, n)
    {
      assert names[..i + 1] == names[..i] + [names[i]];
      if names[i] in deps && deps[names[i]] == {} {
        Appended(r, names[i]);
        r := r + [names[i]];
      }
    }
    assert names[..|names|] == names;
  }

  /** list.remove, for a list without repetitions. */
  method Remove(names: seq<Name>, name: Name) returns (r: seq<Name>)
    requires NoRepeats(names)
    ensures NoRepeats(r) && SetOf(r) == SetOf(names) - {name}
  {
    r := [];
    for i := 0 to |names|
      invariant NoRepeats(r) && SetOf(r) == SetOf(names[..i]) - {name}
    {
      assert names[..i + 1] == names[..i] + [names[i]];
      Appended(names[..i], names[i]);
      Appended(r, names[i]);
      if names[i] != name {
        r := r + [names[i]];
      }
    }
    assert names[..|names|] == names;
  }

  method Listed(names: set<Name>) returns (r: seq<Name>)
    ensures NoRepeats(r) && SetOf(r) == names
  {
    r := [];
    var todo := names;
    while todo != {}
      invariant todo <= names && NoRepeats(r) && SetOf(r) == names - todo
    {
      var n :| n in todo;
      Appended(r, n);
      r := r + [n];
      todo := todo - {n};
    }
  }

  /** What order_packages has done when it has ordered some packages. */
  ghost predicate Ordering(deps: Deps, current: Deps, ordered: seq<Name>, toBeOrdered: seq<Name>) {
    && current == Without(deps, SetOf(ordered))
    && NoRepeats(ordered) && NoRepeats(toBeOrdered)
    && SetOf(ordered) + SetOf(toBeOrdered) == deps.Keys && SetOf(ordered) !! SetOf(toBeOrdered)
    && AfterDeps(deps, ordered) && Greedy(deps, ordered)
  }

  lemma OrderingStarts(deps: Deps, names: seq<Name>)
    requires NoRepeats(names) && SetOf(names) == deps.Keys
    ensures Ordering(deps, deps, [], names)
  {
    var none: seq<Name> := [];
    assert SetOf(none) == {};
    forall n | n in deps ensures deps[n] - SetOf(none) == deps[n] {
    }
    assert Without(deps, SetOf(none)) == deps;
  }

  lemma AfterDepsMore(deps: Deps, ordered: seq<Name>, name: Name)
    requires AfterDeps(deps, ordered) && name in deps && deps[name] <= SetOf(ordered)
    ensures AfterDeps(deps, ordered + [name])
  {
    var more := ordered + [name];
    forall i | 0 <= i < |more| ensures more[i] in deps && deps[more[i]] <= SetOf(more[..i]) {
      assert more[..i] == if i < |ordered| then ordered[..i] else ordered;
    }
  }

  lemma GreedyMore(deps: Deps, ordered: seq<Name>, name: Name)
    requires Greedy(deps, ordered)
    requires forall n :: n in deps && n !in ordered && deps[n] <= SetOf(ordered) ==> AtMost(name, n)
    ensures Greedy(deps, ordered + [name])
  {
    var more := ordered + [name];
    forall i, n | 0 <= i < |more| && n in deps && n !in more[..i] && deps[n] <= SetOf(more[..i])
      ensures AtMost(more[i], n)
    {
      assert more[..i] == if i < |ordered| then ordered[..i] else ordered;
    }
  }

  lemma OrderingMore(deps: Deps, current: Deps, after: Deps, ordered: seq<Name>, names: seq<Name>, rest: seq<Name>,
                     ready: seq<Name>, name: Name)
    requires Ordering(deps, current, ordered, names)
    requires SetOf(ready) == (set n | n in names && Ready(current, n)) && ready != [] && name == Least(ready)
    requires NoRepeats(rest) && SetOf(rest) == SetOf(names) - {name} && after == Without(current, {name})
    ensures Ordering(deps, after, ordered + [name], rest)
  {
    hide Ordering, AfterDeps, Greedy, AtMost, NoRepeats, Least, Without;
    OrderingParts(deps, current, ordered, names);
    ChosenIsReady(deps, ordered, names, ready, name);
    OrderingSets(deps, ordered, names, rest, name);
    WithoutMore(deps, ordered, name);
    forall n | n in deps && n !in ordered && deps[n] <= SetOf(ordered) ensures AtMost(name, n) {
      ChosenIsLeast(deps, ordered, names, ready, n);
    }
    AfterDepsMore(deps, ordered, name);
    GreedyMore(deps, ordered, name);
    OrderingWhole(deps, after, ordered + [name], rest);
  }

  lemma OrderingWhole(deps: Deps, current: Deps, ordered: seq<Name>, names: seq<Name>)
    requires current == Without(deps, SetOf(ordered)) && NoRepeats(ordered) && NoRepeats(names)
    requires SetOf(ordered) + SetOf(names) == deps.Keys && SetOf(ordered) !! SetOf(names)
    requires AfterDeps(deps, ordered) && Greedy(deps, ordered)
    ensures Ordering(deps, current, ordered, names)
  {
  }

  lemma OrderingSets(deps: Deps, ordered: seq<Name>, names: seq<Name>, rest: seq<Name>, name: Name)
    requires NoRepeats(ordered) && SetOf(ordered) + SetOf(names) == deps.Keys && SetOf(ordered) !! SetOf(names)
    requires name in SetOf(names) && SetOf(rest) == SetOf(names) - {name}
    ensures var more := ordered + [name];
      NoRepeats(more) && SetOf(more) + SetOf(rest) == deps.Keys && SetOf(more) !! SetOf(rest)
  {
    hide NoRepeats;
    Appended(ordered, name);
  }

  lemma ChosenIsReady(deps: Deps, ordered: seq<Name>, names: seq<Name>, ready: seq<Name>, name: Name)
    requires SetOf(ordered) + SetOf(names) == deps.Keys
    requires SetOf(ready) == (set n | n in names && Ready(Without(deps, SetOf(ordered)), n)) && name in ready
    ensures name in SetOf(names) && name in deps && deps[name] <= SetOf(ordered)
  {
    assert name in SetOf(ready);
    assert name in SetOf(names);
    WasReady(deps, ordered, name);
  }

  lemma ChosenIsLeast(deps: Deps, ordered: seq<Name>, names: seq<Name>, ready: seq<Name>, n: Name)
    requires SetOf(ordered) + SetOf(names) == deps.Keys
    requires SetOf(ready) == (set n | n in names && Ready(Without(deps, SetOf(ordered)), n)) && ready != []
    requires n in deps && n !in ordered && deps[n] <= SetOf(ordered)
    ensures AtMost(Least(ready), n)
  {
    WasReady(deps, ordered, n);
    assert n in SetOf(ordered) + SetOf(names);
    assert n in SetOf(names);
    assert n in SetOf(ready);
  }

  lemma WithoutMore(deps: Deps, ordered: seq<Name>, name: Name)
    ensures Without(Without(deps, SetOf(ordered)), {name}) == Without(deps, SetOf(ordered + [name]))
  {
    Appended(ordered, name);
    forall n | n in deps ensures deps[n] - SetOf(ordered) - {name} == deps[n] - SetOf(ordered + [name]) {
    }
  }

  lemma WasReady(deps: Deps, ordered: seq<Name>, n: Name)
    requires n in deps
    ensures Ready(Without(deps, SetOf(ordered)), n) <==> deps[n] <= SetOf(ordered)
  {
    var left := deps[n] - SetOf(ordered);
    assert Without(deps, SetOf(ordered))[n] == left;
    if deps[n] <= SetOf(ordered) {
      assert left == {};
    } else {
      var d :| d in deps[n] && d !in SetOf(ordered);
      assert d in left;
    }
  }

  lemma NothingReady(deps: Deps, current: Deps, ordered: seq<Name>, names: seq<Name>) returns (cycle: seq<Name>)
    requires Closed(deps) && Ordering(deps, current, ordered, names) && names != []
    requires (set n | n in names && Ready(current, n)) == {}
    ensures IsCycle(deps, cycle)
  {
    hide AfterDeps, Greedy;
    var stuck := SetOf(names);
    forall n | n in stuck ensures DependsOnOne(deps, stuck, n) {
      assert n in names && n in deps.Keys;
      ghost var ready := set m | m in names && Ready(current, m);
      assert n !in ready;
      var d :| d in current[n];
      assert d in deps.Keys;
    }
    assert IsPath(deps, [names[0]]) && NoRepeats([names[0]]);
    assert SetOf([names[0]]) <= stuck;
    cycle := WalkInCircle(deps, stuck, [names[0]]);
  }

  /** No further package has all its dependencies among those that are done. */
  ghost predicate NoneReady(deps: Deps, done: seq<Name>) {
    forall n :: n in deps && n !in SetOf(done) ==> !(deps[n] <= SetOf(done))
  }

  lemma NothingReadyLeft(deps: Deps, current: Deps, ordered: seq<Name>, names: seq<Name>)
    requires Ordering(deps, current, ordered, names) && (set n | n in names && Ready(current, n)) == {}
    ensures NoneReady(deps, ordered)
  {
    OrderingParts(deps, current, ordered, names);
    hide Ordering, Ready, Without, AfterDeps, Greedy;
    forall n | n in deps && n !in SetOf(ordered) ensures !(deps[n] <= SetOf(ordered)) {
      WasReady(deps, ordered, n);
      assert n in SetOf(ordered) + SetOf(names);
      assert n in SetOf(names);
      ghost var ready := set m | m in names && Ready(current, m);
      assert n !in ready;
    }
  }

  lemma OrderedIsTopological(deps: Deps, current: Deps, ordered: seq<Name>)
    requires Ordering(deps, current, ordered, [])
    ensures Topological(deps, ordered)
    ensures forall other :: Topological(deps, other) ==> LexAtMost(ordered, other)
    ensures !exists path :: IsCycle(deps, path)
  {
    assert SetOf([]) == {};
    assert Topological(deps, ordered) by {
      hide Greedy;
    }
    hide Ordering, Topological, AfterDeps, Greedy;
    forall other | Topological(deps, other) ensures LexAtMost(ordered, other) {
      LeastAmong(deps, current, ordered, other);
    }
    forall path ensures !IsCycle(deps, path) {
      NotOnCycle(deps, ordered, path);
    }
  }

  lemma LeastAmong(deps: Deps, current: Deps, ordered: seq<Name>, other: seq<Name>)
    requires Ordering(deps, current, ordered, []) && Topological(deps, ordered) && Topological(deps, other)
    ensures LexAtMost(ordered, other)
  {
    GreedyIsLeast(deps, ordered, other);
  }

  lemma NotOnCycle(deps: Deps, ordered: seq<Name>, path: seq<Name>)
    requires Topological(deps, ordered)
    ensures !IsCycle(deps, path)
  {
    if IsCycle(deps, path) {
      CycleSpared(deps, ordered, path);
      KnownOnCycle(deps, path);
    }
  }

  lemma KnownOnCycle(deps: Deps, path: seq<Name>)
    requires IsCycle(deps, path)
    ensures path[0] in SetOf(path) && path[0] in deps.Keys
  {
  }

  /** Either the alphabetically least of the orders in which each package comes after its
      dependencies, or, exactly if there is a cycle, the packages left by reduce_cycle_set, which
      stay behind in the dictionary. They are the most that depend on each other when all that could
      be ordered is taken out, and every cycle is among them. */
  method OrderPackages(packages: Packages) returns (r: Result<seq<Name>, set<Name>>, ghost done: seq<Name>)
    requires Closed(packages.deps)
    modifies packages
    ensures r.Ok? ==> Topological(old(packages.deps), r.value)
    ensures r.Ok? ==> forall other :: Topological(old(packages.deps), other) ==> LexAtMost(r.value, other)
    ensures r.Err? <==> exists path :: IsCycle(old(packages.deps), path)
    ensures r.Err? ==> r.error == packages.deps.Keys && r.error != {}
    ensures r.Err? ==> AfterDeps(old(packages.deps), done) && NoneReady(old(packages.deps), done)
    ensures r.Err? ==> GreatestSupported(Without(old(packages.deps), SetOf(done)), r.error)
    ensures r.Err? ==> forall path :: IsCycle(old(packages.deps), path) ==> SetOf(path) <= r.error
  {
    hide Ordering, Topological, LexAtMost, IsCycle, GreatestSupported, AfterDeps;
    hide Least, Closed, NoRepeats, Reducing, Without, NoneReady;
    ghost var deps := packages.deps;
    var toBeOrdered := Listed(packages.deps.Keys);
    var ordered := [];
    OrderingStarts(deps, toBeOrdered);
    while toBeOrdered != []
      invariant Ordering(deps, packages.deps, ordered, toBeOrdered)
      decreases |SetOf(toBeOrdered)|
    {
      OrderingParts(deps, packages.deps, ordered, toBeOrdered);
      var withoutDeps := NamesWithoutDeps(packages.deps, toBeOrdered);
      done := ordered;
      if withoutDeps == [] {
        NothingReadyLeft(deps, packages.deps, ordered, toBeOrdered);
        ghost var cycle := NothingReady(deps, packages.deps, ordered, toBeOrdered);
        packages.ReduceCycleSet();
        CyclesLeft(deps, ordered, packages.deps.Keys, cycle);
        return Err(packages.deps.Keys), done;
      }
      var name := Least(withoutDeps);
      assert name in SetOf(withoutDeps);
      var rest := Remove(toBeOrdered, name);
      ghost var before := packages.deps;
      packages.RemoveDependency(name);
      OrderingMore(deps, before, packages.deps, ordered, toBeOrdered, rest, withoutDeps, name);
      SmallerSet(SetOf(rest), SetOf(toBeOrdered));
      toBeOrdered := rest;
      ordered := ordered + [name];
    }
    OrderedIsTopological(deps, packages.deps, ordered);
    return Ok(ordered), ordered;
  }

  lemma OrderingParts(deps: Deps, current: Deps, ordered: seq<Name>, names: seq<Name>)
    requires Ordering(deps, current, ordered, names)
    ensures current == Without(deps, SetOf(ordered)) && NoRepeats(ordered) && NoRepeats(names)
    ensures SetOf(ordered) + SetOf(names) == deps.Keys && SetOf(ordered) !! SetOf(names)
    ensures AfterDeps(deps, ordered) && Greedy(deps, ordered)
  {
  }

  lemma CyclesLeft(deps: Deps, ordered: seq<Name>, left: set<Name>, cycle: seq<Name>)
    requires AfterDeps(deps, ordered) && GreatestSupported(Without(deps, SetOf(ordered)), left) && IsCycle(deps, cycle)
    ensures left != {} && forall path :: IsCycle(deps, path) ==> SetOf(path) <= left
  {
    hide Supported, AfterDeps;
    forall path | IsCycle(deps, path) ensures SetOf(path) <= left {
      CycleSupported(deps, ordered, path);
    }
    assert cycle[0] in SetOf(cycle);
  }
}

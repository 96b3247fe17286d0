/** Recursive discovery of the variables below a node, and what it lists: the ends of all routes
    through objects, in depth-first order. */
module Browser {
  import opened Collections
  import opened Wrappers

  datatype NodeClass = Object | Variable | OtherClass

  datatype Reference = Reference(id: string, class_: NodeClass, browseName: string, displayName: string)

  /** A server's answers to a forward browse of one node; a node not in the map is refused. */
  type Space = map<string, seq<Reference>>

  datatype Discovered = Discovered(id: string, browseName: string, displayName: string)

  function Describe(ref: Reference): Discovered {
    Discovered(ref.id,
               if ref.browseName == "" then ref.id else ref.browseName,
               if ref.displayName == "" then ref.browseName else ref.displayName)
  }

  /** A variable is listed under its own id and names; a missing browse name is replaced by the id, a
      missing display name by the browse name. */
  lemma DescribedBy(ref: Reference)
    ensures Describe(ref).id == ref.id
    ensures ref.browseName != "" ==> Describe(ref).browseName == ref.browseName
    ensures ref.browseName == "" ==> Describe(ref).browseName == ref.id
    ensures ref.displayName != "" ==> Describe(ref).displayName == ref.displayName
    ensures ref.displayName == "" ==> Describe(ref).displayName == ref.browseName
  {
  }

  // ---------- routes ----------

  /** A route names a reference by its position at each node on the way.  The object it ends at: */
  function ObjectAt(space: Space, from: string, route: seq<nat>): Option<string>
    decreases |route|
  {
    if route == [] then Some(from)
    else if from !in space || route[0] >= |space[from]| || !space[from][route[0]].class_.Object? then None
    else ObjectAt(space, space[from][route[0]].id, route[1..])
  }

  /** The variable a route ends at, when every node before it is an object. */
  function VariableAt(space: Space, from: string, route: seq<nat>): Option<Discovered>
    decreases |route|
  {
    if route == [] || from !in space || route[0] >= |space[from]| then None
    else
      var ref := space[from][route[0]];
      if |route| == 1 then (if ref.class_.Variable? then Some(Describe(ref)) else None)
      else if ref.class_.Object? then VariableAt(space, ref.id, route[1..]) else None
  }

  /** Depth-first order: the earlier reference first, a node's own references before none. */
  predicate Before(a: seq<nat>, b: seq<nat>) {
    a != [] && b != [] && (a[0] < b[0] || (a[0] == b[0] && Before(a[1..], b[1..])))
  }

  /** No object reachable from here leads back to itself. */
  ghost predicate Acyclic(space: Space, from: string) {
    forall route, loop, id :: loop != [] && ObjectAt(space, from, route) == Some(id)
      ==> ObjectAt(space, id, loop) != Some(id)
  }

  ghost predicate Reachable(space: Space, from: string, id: string) {
    exists route :: ObjectAt(space, from, route) == Some(id)
  }

  ghost function Below(space: Space, from: string): set<string> {
    set id | id in space.Keys && Reachable(space, from, id)
  }

  lemma OneStep(space: Space, from: string, i: nat, route: seq<nat>)
    requires from in space && i < |space[from]| && space[from][i].class_.Object?
    ensures ObjectAt(space, from, [i] + route) == ObjectAt(space, space[from][i].id, route)
  {
    assert ([i] + route)[1..] == route;
  }

  lemma ChildIsSmaller(space: Space, from: string, i: nat)
    requires Acyclic(space, from) && from in space && i < |space[from]| && space[from][i].class_.Object?
    ensures Acyclic(space, space[from][i].id)
    ensures |Below(space, space[from][i].id)| < |Below(space, from)|
  {
    var child := space[from][i].id;
    forall route, loop, id | loop != [] && ObjectAt(space, child, route) == Some(id)
      ensures ObjectAt(space, id, loop) != Some(id)
    {
      OneStep(space, from, i, route);
    }
    forall id | id in Below(space, child) ensures id in Below(space, from) {
      var route :| ObjectAt(space, child, route) == Some(id);
      OneStep(space, from, i, route);
    }
    assert ObjectAt(space, from, []) == Some(from);
    if from in Below(space, child) {
      var route :| ObjectAt(space, child, route) == Some(from);
      OneStep(space, from, i, route);
    }
    assert from in Below(space, from);
    SubsetCardinality(Below(space, child) + {from}, Below(space, from));
  }

  // ---------- the traversal ----------

  /** What a traversal appends for the references of `from` from position i on. */
  ghost function Listing(space: Space, from: string, i: nat): seq<Discovered>
    requires Acyclic(space, from) && from in space && i <= |space[from]|
    decreases |Below(space, from)|, |space[from]| - i
  {
    if i == |space[from]| then []
    else Entry(space, from, i) + Listing(space, from, i + 1)
  }

  /** What it appends for one reference. */
  ghost function Entry(space: Space, from: string, i: nat): seq<Discovered>
    requires Acyclic(space, from) && from in space && i < |space[from]|
    decreases |Below(space, from)|, |space[from]| - i, 0
  {
    var ref := space[from][i];
    match ref.class_
    case Variable => [Describe(ref)]
    case OtherClass => []
    case Object =>
      ChildIsSmaller(space, from, i);
      if ref.id in space then Listing(space, ref.id, 0) else []
  }

  class Discovery {
    var nodes: seq<Discovered>

    constructor ()
      ensures nodes == []
    {
      nodes := [];
    }

    /** A refused browse of a child goes unnoticed; a refused browse of `from` itself is reported. */
    method BrowseRecursive(space: Space, from: string) returns (ok: bool)
      requires Acyclic(space, from)
      modifies this
      ensures ok <==> from in space
      ensures nodes == old(nodes) + if from in space then Listing(space, from, 0) else []
      decreases |Below(space, from)|
    {
      if from !in space {
        return false;
      }
      var references := space[from];
      var i := 0;
      while i < |references|
        invariant 0 <= i <= |references|
        invariant nodes + Listing(space, from, i) == old(nodes) + Listing(space, from, 0)
      {
        var ref := references[i];
        ghost var before := nodes;
        if ref.class_.Variable? {
          nodes := nodes + [Describe(ref)];
        } else if ref.class_.Object? {
          ChildIsSmaller(space, from, i);
          var _ := BrowseRecursive(space, ref.id);
        }
        assert nodes == before + Entry(space, from, i);
        i := i + 1;
      }
      return true;
    }
  }

  // ---------- the listing is the ends of all routes ----------

  ghost function Under(i: nat, routes: seq<seq<nat>>): (r: seq<seq<nat>>)
    ensures |r| == |routes| && forall k :: 0 <= k < |r| ==> r[k] == [i] + routes[k]
  {
    seq(|routes|, k requires 0 <= k < |routes| => [i] + routes[k])
  }

  /** The routes to variables through reference i, and through references i and later. */
  ghost function RoutesVia(space: Space, from: string, i: nat): seq<seq<nat>>
    requires Acyclic(space, from) && from in space && i < |space[from]|
    decreases |Below(space, from)|, |space[from]| - i, 0
  {
    var ref := space[from][i];
    match ref.class_
    case Variable => [[i]]
    case OtherClass => []
    case Object =>
      ChildIsSmaller(space, from, i);
      if ref.id in space then Under(i, Routes(space, ref.id, 0)) else []
  }

  ghost function Routes(space: Space, from: string, i: nat): seq<seq<nat>>
    requires Acyclic(space, from) && from in space && i <= |space[from]|
    decreases |Below(space, from)|, |space[from]| - i
  {
    if i == |space[from]| then [] else RoutesVia(space, from, i) + Routes(space, from, i + 1)
  }

  /** `ends` lists where `routes` end. */
  ghost predicate EndsOf(space: Space, from: string, routes: seq<seq<nat>>, ends: seq<Discovered>) {
    |routes| == |ends| && forall k :: 0 <= k < |ends| ==> VariableAt(space, from, routes[k]) == Some(ends[k])
  }

  lemma {:induction false} EntryEnds(space: Space, from: string, i: nat)
    requires Acyclic(space, from) && from in space && i < |space[from]|
    ensures EndsOf(space, from, RoutesVia(space, from, i), Entry(space, from, i))
    decreases |Below(space, from)|, |space[from]| - i, 0
  {
    var ref := space[from][i];
    if ref.class_.Object? {
      ChildIsSmaller(space, from, i);
      if ref.id in space {
        ListingEnds(space, ref.id, 0);
        var inner := Routes(space, ref.id, 0);
        forall k | 0 <= k < |inner|
          ensures VariableAt(space, from, [i] + inner[k]) == VariableAt(space, ref.id, inner[k])
        {
          assert ([i] + inner[k])[1..] == inner[k];
          assert VariableAt(space, ref.id, inner[k]).Some?;
        }
      }
    }
  }

  lemma {:induction false} ListingEnds(space: Space, from: string, i: nat)
    requires Acyclic(space, from) && from in space && i <= |space[from]|
    ensures EndsOf(space, from, Routes(space, from, i), Listing(space, from, i))
    decreases |Below(space, from)|, |space[from]| - i
  {
    if i < |space[from]| {
      EntryEnds(space, from, i);
      ListingEnds(space, from, i + 1);
    }
  }

  lemma {:induction false} RoutesAreAll(space: Space, from: string, i: nat, route: seq<nat>)
    requires Acyclic(space, from) && from in space && i <= |space[from]|
    requires VariableAt(space, from, route).Some? && i <= route[0]
    ensures route in Routes(space, from, i)
    decreases |route|, |space[from]| - i
  {
    if i < route[0] {
      RoutesAreAll(space, from, i + 1, route);
    } else if |route| == 1 {
      assert route == [i];
      assert RoutesVia(space, from, i)[0] == route;
    } else {
      var child := space[from][i].id;
      ChildIsSmaller(space, from, i);
      RoutesAreAll(space, child, 0, route[1..]);
      var k :| 0 <= k < |Routes(space, child, 0)| && Routes(space, child, 0)[k] == route[1..];
      assert RoutesVia(space, from, i)[k] == [i] + route[1..] == route;
    }
  }

  /** Strictly increasing in depth-first order, from a first position of at least i. */
  ghost predicate InOrder(routes: seq<seq<nat>>, i: nat) {
    (forall k :: 0 <= k < |routes| ==> routes[k] != [] && i <= routes[k][0])
    && forall j, k :: 0 <= j < k < |routes| ==> Before(routes[j], routes[k])
  }

  lemma UnderInOrder(i: nat, routes: seq<seq<nat>>)
    requires InOrder(routes, 0)
    ensures InOrder(Under(i, routes), i)
  {
    var under := Under(i, routes);
    forall j, k | 0 <= j < k < |under| ensures Before(under[j], under[k]) {
      assert under[j][1..] == routes[j] && under[k][1..] == routes[k];
    }
  }

  lemma JoinInOrder(first: seq<seq<nat>>, later: seq<seq<nat>>, i: nat)
    requires InOrder(first, i) && InOrder(later, i + 1)
    requires forall k :: 0 <= k < |first| ==> first[k][0] == i
    ensures InOrder(first + later, i)
  {
    var all := first + later;
    forall j, k | 0 <= j < k < |all| ensures Before(all[j], all[k]) {
      if j < |first| <= k {
        assert all[j] == first[j] && all[k] == later[k - |first|];
      }
    }
  }

  lemma {:induction false} ViaInOrder(space: Space, from: string, i: nat)
    requires Acyclic(space, from) && from in space && i < |space[from]|
    ensures InOrder(RoutesVia(space, from, i), i)
    ensures forall k :: 0 <= k < |RoutesVia(space, from, i)| ==> RoutesVia(space, from, i)[k][0] == i
    decreases |Below(space, from)|, |space[from]| - i, 0
  {
    var ref := space[from][i];
    if ref.class_.Object? {
      ChildIsSmaller(space, from, i);
      if ref.id in space {
        RoutesInOrder(space, ref.id, 0);
        UnderInOrder(i, Routes(space, ref.id, 0));
      }
    }
  }

  lemma {:induction false} RoutesInOrder(space: Space, from: string, i: nat)
    requires Acyclic(space, from) && from in space && i <= |space[from]|
    ensures InOrder(Routes(space, from, i), i)
    decreases |Below(space, from)|, |space[from]| - i
  {
    if i < |space[from]| {
      ViaInOrder(space, from, i);
      RoutesInOrder(space, from, i + 1);
      JoinInOrder(RoutesVia(space, from, i), Routes(space, from, i + 1), i);
    }
  }

  /** On any acyclic space a traversal lists exactly the ends of the routes that pass through
      objects and end at a variable: one entry for every such route, in depth-first order. */
  lemma ListsEveryRouteInOrder(space: Space, from: string) returns (routes: seq<seq<nat>>)
    requires Acyclic(space, from) && from in space
    ensures EndsOf(space, from, routes, Listing(space, from, 0))
    ensures forall route :: route in routes <==> VariableAt(space, from, route).Some?
    ensures forall j, k :: 0 <= j < k < |routes| ==> Before(routes[j], routes[k])
  {
    routes := Routes(space, from, 0);
    ListingEnds(space, from, 0);
    RoutesInOrder(space, from, 0);
    forall route | VariableAt(space, from, route).Some? ensures route in routes {
      RoutesAreAll(space, from, 0, route);
    }
  }

  // ---------- trees ----------

  /** No two references lead to the same node, and none leads to `from`. */
  ghost predicate Tree(space: Space, from: string) {
    (forall a, b, i: nat, j: nat ::
       a in space && b in space && i < |space[a]| && j < |space[b]| && space[a][i].id == space[b][j].id ==>
         a == b && i == j)
    && forall a, i: nat :: a in space && i < |space[a]| ==> space[a][i].id != from
  }

  /** The node a route of length at least one leaves last, and the reference it leaves by. */
  lemma {:induction false} LastStep(space: Space, from: string, route: seq<nat>) returns (last: string)
    requires ObjectAt(space, from, route).Some? || VariableAt(space, from, route).Some?
    requires route != []
    ensures var n := |route| - 1;
      ObjectAt(space, from, route[..n]) == Some(last) && last in space && route[n] < |space[last]|
    ensures ObjectAt(space, from, route).Some?
      ==> ObjectAt(space, from, route).value == space[last][route[|route| - 1]].id
    ensures VariableAt(space, from, route).Some?
      ==> VariableAt(space, from, route).value == Describe(space[last][route[|route| - 1]])
    decreases |route|
  {
    var n := |route| - 1;
    if n == 0 {
      assert route[..0] == [] && route[1..] == [];
      last := from;
    } else {
      var ref := space[from][route[0]];
      last := LastStep(space, ref.id, route[1..]);
      assert route[1..][..n - 1] == route[..n][1..];
    }
  }

  /** On a tree, routes to the same object are the same route. */
  lemma {:induction false} SameObjectSameRoute(space: Space, from: string, a: seq<nat>, b: seq<nat>)
    requires Tree(space, from)
    requires ObjectAt(space, from, a).Some? && ObjectAt(space, from, a) == ObjectAt(space, from, b)
    ensures a == b
    decreases |a| + |b|
  {
    if a != [] && b != [] {
      var x := LastStep(space, from, a);
      var y := LastStep(space, from, b);
      SameObjectSameRoute(space, from, a[..|a| - 1], b[..|b| - 1]);
      assert a == a[..|a| - 1] + [a[|a| - 1]] && b == b[..|b| - 1] + [b[|b| - 1]];
    } else if a != [] {
      var x := LastStep(space, from, a);
    } else if b != [] {
      var y := LastStep(space, from, b);
    }
  }

  lemma SameVariableSameRoute(space: Space, from: string, a: seq<nat>, b: seq<nat>)
    requires Tree(space, from)
    requires VariableAt(space, from, a).Some? && VariableAt(space, from, b).Some?
    requires VariableAt(space, from, a).value.id == VariableAt(space, from, b).value.id
    ensures a == b
  {
    var x := LastStep(space, from, a);
    var y := LastStep(space, from, b);
    SameObjectSameRoute(space, from, a[..|a| - 1], b[..|b| - 1]);
    assert a == a[..|a| - 1] + [a[|a| - 1]] && b == b[..|b| - 1] + [b[|b| - 1]];
  }

  lemma {:induction false} NotBeforeItself(a: seq<nat>)
    ensures !Before(a, a)
    decreases |a|
  {
    if a != [] {
      NotBeforeItself(a[1..]);
    }
  }

  lemma EndsAreDistinct(space: Space, from: string, routes: seq<seq<nat>>, ends: seq<Discovered>, j: nat, k: nat)
    requires Tree(space, from) && EndsOf(space, from, routes, ends) && j < k < |ends| && Before(routes[j], routes[k])
    ensures ends[j].id != ends[k].id
  {
    if ends[j].id == ends[k].id {
      SameVariableSameRoute(space, from, routes[j], routes[k]);
      NotBeforeItself(routes[j]);
    }
  }

  /** Some route through objects ends at this variable. */
  ghost predicate VariableBelow(space: Space, from: string, d: Discovered) {
    exists route :: VariableAt(space, from, route) == Some(d)
  }

  lemma EndsAreAll(space: Space, from: string, routes: seq<seq<nat>>, ends: seq<Discovered>, d: Discovered)
    requires EndsOf(space, from, routes, ends)
    requires forall route :: route in routes <==> VariableAt(space, from, route).Some?
    ensures d in ends <==> VariableBelow(space, from, d)
  {
    if d in ends {
      var k :| 0 <= k < |ends| && ends[k] == d;
      assert VariableAt(space, from, routes[k]) == Some(d);
    }
    if VariableBelow(space, from, d) {
      var route :| VariableAt(space, from, route) == Some(d);
      assert route in routes;
      var k :| 0 <= k < |routes| && routes[k] == route;
      assert VariableAt(space, from, routes[k]) == Some(ends[k]);
      assert ends[k] in ends;
    }
  }

  lemma EntriesAreDistinct(space: Space, from: string, routes: seq<seq<nat>>, ends: seq<Discovered>)
    requires Tree(space, from) && EndsOf(space, from, routes, ends)
    requires forall j, k :: 0 <= j < k < |routes| ==> Before(routes[j], routes[k])
    ensures forall j, k :: 0 <= j < k < |ends| ==> ends[j].id != ends[k].id
  {
    forall j, k | 0 <= j < k < |ends| ensures ends[j].id != ends[k].id {
      EndsAreDistinct(space, from, routes, ends, j, k);
    }
  }

  lemma EntriesAreAll(space: Space, from: string, routes: seq<seq<nat>>, ends: seq<Discovered>)
    requires EndsOf(space, from, routes, ends)
    requires forall route :: route in routes <==> VariableAt(space, from, route).Some?
    ensures forall d :: d in ends <==> VariableBelow(space, from, d)
  {
    forall d ensures d in ends <==> VariableBelow(space, from, d) {
      EndsAreAll(space, from, routes, ends, d);
    }
  }

  /** On a tree every variable whose ancestors are all objects is listed exactly once. */
  lemma EachVariableOnce(space: Space, from: string)
    requires Acyclic(space, from) && from in space && Tree(space, from)
    ensures forall d :: d in Listing(space, from, 0) <==> VariableBelow(space, from, d)
    ensures var found := Listing(space, from, 0); forall j, k :: 0 <= j < k < |found| ==> found[j].id != found[k].id
  {
    var found := Listing(space, from, 0);
    var routes := ListsEveryRouteInOrder(space, from);
    EntriesAreDistinct(space, from, routes, found);
    EntriesAreAll(space, from, routes, found);
  }

  // ---------- cycles ----------

  ghost function Repeat(loop: seq<nat>, n: nat): seq<nat> {
    if n == 0 then [] else loop + Repeat(loop, n - 1)
  }

  lemma {:induction false} Joined(space: Space, from: string, a: seq<nat>, b: seq<nat>)
    requires ObjectAt(space, from, a).Some?
    ensures ObjectAt(space, from, a + b) == ObjectAt(space, ObjectAt(space, from, a).value, b)
    decreases |a|
  {
    if a == [] {
      assert a + b == b;
    } else {
      Joined(space, space[from][a[0]].id, a[1..], b);
      assert (a + b)[1..] == a[1..] + b;
    }
  }

  /** Once some object leads back to itself, the recursion has no bound: there is no visited set. */
  lemma {:induction false} CycleHasNoBound(space: Space, from: string, route: seq<nat>, loop: seq<nat>, n: nat)
    requires loop != [] && ObjectAt(space, from, route).Some?
    requires ObjectAt(space, ObjectAt(space, from, route).value, loop) == ObjectAt(space, from, route)
    ensures ObjectAt(space, from, route + Repeat(loop, n)) == ObjectAt(space, from, route)
    ensures |route + Repeat(loop, n)| >= n
    decreases n
  {
    if n == 0 {
      assert route + [] == route;
    } else {
      CycleHasNoBound(space, from, route, loop, n - 1);
      var id := ObjectAt(space, from, route).value;
      Joined(space, from, route, Repeat(loop, n - 1));
      Joined(space, id, loop, Repeat(loop, n - 1));
      Joined(space, from, route, Repeat(loop, n));
      assert |Repeat(loop, n)| == |loop| + |Repeat(loop, n - 1)|;
    }
  }
}

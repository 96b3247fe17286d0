/** Parent chains in a configuration, the capped depth, and the exchange sort keyed on it. */
module NodeTree {
  import opened ServerConfig

  const DEPTH_CAP := 32

  ghost function Names(nodes: seq<NodeDef>): set<string> {
    set d | d in nodes :: d.browseName
  }

  ghost predicate Distinct(nodes: seq<NodeDef>) {
    forall i, j :: 0 <= i < j < |nodes| ==> nodes[i].browseName != nodes[j].browseName
  }

  /** The index of the first entry of that name, or -1. */
  function Find(nodes: seq<NodeDef>, name: string): (i: int)
    ensures -1 <= i < |nodes|
    ensures 0 <= i ==> nodes[i].browseName == name && forall k :: 0 <= k < i ==> nodes[k].browseName != name
    ensures i < 0 <==> name !in Names(nodes)
  {
    if nodes == [] then -1
    else if nodes[0].browseName == name then assert nodes[0] in nodes; 0
    else
      var i := Find(nodes[1..], name);
      assert nodes == [nodes[0]] + nodes[1..];
      assert Names(nodes) == {nodes[0].browseName} + Names(nodes[1..]);
      if i < 0 then -1 else i + 1
  }

  method FindNodeIndex(nodes: seq<NodeDef>, name: string) returns (idx: int)
    ensures idx == Find(nodes, name)
  {
    var i := 0;
    while i < |nodes|
      invariant 0 <= i <= |nodes|
      invariant forall k :: 0 <= k < i ==> nodes[k].browseName != name
    {
      if nodes[i].browseName == name {
        return i;
      }
      i := i + 1;
    }
    return -1;
  }

  /** How many ancestors a climb from `parent` meets within `fuel` steps. */
  function Climb(nodes: seq<NodeDef>, parent: string, fuel: nat): (d: nat)
    ensures d <= fuel
    decreases fuel, parent
  {
    if fuel == 0 || parent == "" || Find(nodes, parent) < 0 then 0
    else 1 + Climb(nodes, nodes[Find(nodes, parent)].parentName, fuel - 1)
  }

  lemma ClimbOne(nodes: seq<NodeDef>, parent: string, i: int, above: string, fuel: nat)
    requires parent != "" && 0 <= i == Find(nodes, parent) && nodes[i].parentName == above && fuel > 0
    ensures Climb(nodes, parent, fuel) == 1 + Climb(nodes, above, fuel - 1)
  {
  }

  function Depth(nodes: seq<NodeDef>, node: NodeDef): nat {
    Climb(nodes, node.parentName, DEPTH_CAP)
  }

  /** The guarded walk of the source. */
  method NodeDepth(nodes: seq<NodeDef>, node: NodeDef) returns (depth: nat)
    ensures depth == Depth(nodes, node)
  {
    depth := 0;
    var parent := node.parentName;
    var guard := 0;
    while guard < DEPTH_CAP
      invariant 0 <= guard <= DEPTH_CAP
      invariant depth + Climb(nodes, parent, DEPTH_CAP - guard) == Depth(nodes, node)
    {
      if parent == "" {
        return;
      }
      var found := false;
      var i := 0;
      while i < |nodes| && !found
        invariant 0 <= i <= |nodes|
        invariant !found ==> forall k :: 0 <= k < i ==> nodes[k].browseName != parent
        invariant found ==> 0 < i && nodes[i - 1].browseName == parent
                            && forall k :: 0 <= k < i - 1 ==> nodes[k].browseName != parent
      {
        found := nodes[i].browseName == parent;
        i := i + 1;
      }
      if !found {
        assert Find(nodes, parent) < 0;
        return;
      }
      assert Find(nodes, parent) == i - 1;
      parent := nodes[i - 1].parentName;
      depth := depth + 1;
      guard := guard + 1;
    }
  }

  // ---------- chains, independently of the walk ----------

  /** `path` lists the entries met, one after the other, when climbing from `parent`. */
  ghost predicate IsChain(nodes: seq<NodeDef>, parent: string, path: seq<nat>)
    decreases |path|
  {
    path == [] ||
    (parent != "" && path[0] == Find(nodes, parent) && IsChain(nodes, nodes[path[0]].parentName, path[1..]))
  }

  /** The parent name at the top of a chain. */
  ghost function TopOf(nodes: seq<NodeDef>, parent: string, path: seq<nat>): string
    requires IsChain(nodes, parent, path)
    decreases |path|
  {
    if path == [] then parent else TopOf(nodes, nodes[path[0]].parentName, path[1..])
  }

  /** A chain ends below Objects: its top names nothing, or nothing that exists. */
  ghost predicate IsFullChain(nodes: seq<NodeDef>, parent: string, path: seq<nat>) {
    IsChain(nodes, parent, path)
    && (TopOf(nodes, parent, path) == "" || Find(nodes, TopOf(nodes, parent, path)) < 0)
  }

  lemma {:induction false} ClimbAlong(nodes: seq<NodeDef>, parent: string, path: seq<nat>, fuel: nat)
    requires IsChain(nodes, parent, path)
    ensures fuel <= |path| ==> Climb(nodes, parent, fuel) == fuel
    ensures |path| <= fuel
        ==> Climb(nodes, parent, fuel) == |path| + Climb(nodes, TopOf(nodes, parent, path), fuel - |path|)
    decreases |path|
  {
    if path != [] && fuel > 0 {
      ClimbAlong(nodes, nodes[path[0]].parentName, path[1..], fuel - 1);
    }
  }

  /** The depth of a node whose chain ends is its length, capped at 32; a dangling parent ends
      a chain like the root. */
  lemma DepthIsCappedLength(nodes: seq<NodeDef>, node: NodeDef, path: seq<nat>)
    requires IsFullChain(nodes, node.parentName, path)
    ensures Depth(nodes, node) == if |path| <= DEPTH_CAP then |path| else DEPTH_CAP
  {
    ClimbAlong(nodes, node.parentName, path, DEPTH_CAP);
  }

  lemma {:induction false} ChainSplits(nodes: seq<NodeDef>, parent: string, path: seq<nat>, k: nat)
    requires IsChain(nodes, parent, path) && k <= |path|
    ensures IsChain(nodes, parent, path[..k])
    ensures IsChain(nodes, TopOf(nodes, parent, path[..k]), path[k..])
    ensures 0 < k ==> path[k - 1] < |nodes| && TopOf(nodes, parent, path[..k]) == nodes[path[k - 1]].parentName
    decreases |path|
  {
    if k > 0 {
      ChainSplits(nodes, nodes[path[0]].parentName, path[1..], k - 1);
      assert path[..k][1..] == path[1..][..k - 1] && path[1..][k - 1..] == path[k..];
      if k > 1 {
        assert path[1..][k - 2] == path[k - 1];
      }
    } else {
      assert path[0..] == path;
    }
  }

  lemma {:induction false} LoopClimbs(nodes: seq<NodeDef>, name: string, loop: seq<nat>, fuel: nat)
    requires loop != [] && IsChain(nodes, name, loop) && TopOf(nodes, name, loop) == name
    ensures Climb(nodes, name, fuel) == fuel
    decreases fuel
  {
    ClimbAlong(nodes, name, loop, fuel);
    if fuel > |loop| {
      LoopClimbs(nodes, name, loop, fuel - |loop|);
    }
  }

  /** A chain that meets an entry twice goes round a loop between the two meetings. */
  lemma LoopBetween(nodes: seq<NodeDef>, parent: string, path: seq<nat>, i: nat, j: nat)
      returns (entry: string, loop: seq<nat>)
    requires IsChain(nodes, parent, path) && i < j < |path| && path[i] == path[j]
    ensures IsChain(nodes, parent, path[..i + 1]) && TopOf(nodes, parent, path[..i + 1]) == entry
    ensures loop != [] && IsChain(nodes, entry, loop) && TopOf(nodes, entry, loop) == entry
  {
    var whole := path[..j + 1];
    ChainSplits(nodes, parent, path, j + 1);
    ChainSplits(nodes, parent, whole, i + 1);
    assert whole[..i + 1] == path[..i + 1];
    entry, loop := TopOf(nodes, parent, path[..i + 1]), whole[i + 1..];
    ChainSplits(nodes, entry, loop, |loop|);
    assert loop[..|loop|] == loop && loop[|loop| - 1] == path[j];
  }

  /** On a cycle the climb never ends: it uses up all the fuel it is given. */
  lemma {:induction false} CycleClimbs(nodes: seq<NodeDef>, parent: string, path: seq<nat>, i: nat, j: nat, fuel: nat)
    requires IsChain(nodes, parent, path) && i < j < |path| && path[i] == path[j]
    ensures Climb(nodes, parent, fuel) == fuel
  {
    var entry, loop := LoopBetween(nodes, parent, path, i, j);
    ClimbAlong(nodes, parent, path[..i + 1], fuel);
    if fuel > i + 1 {
      LoopClimbs(nodes, entry, loop, fuel - (i + 1));
    }
  }

  lemma {:induction false} Pigeonhole(path: seq<nat>, n: nat) returns (i: nat, j: nat)
    requires n < |path| && forall k :: 0 <= k < |path| ==> path[k] < n
    ensures i < j < |path| && path[i] == path[j]
    decreases n
  {
    if k :| 0 <= k < |path| - 1 && path[k] == path[|path| - 1] {
      i, j := k, |path| - 1;
    } else {
      var top := path[|path| - 1];
      var rest := seq(|path| - 1, k requires 0 <= k < |path| - 1 => if path[k] > top then path[k] - 1 else path[k]);
      i, j := Pigeonhole(rest, n - 1);
    }
  }

  lemma {:induction false} ChainInRange(nodes: seq<NodeDef>, parent: string, path: seq<nat>)
    requires IsChain(nodes, parent, path)
    ensures forall k :: 0 <= k < |path| ==> path[k] < |nodes|
    decreases |path|
  {
    if path != [] {
      ChainInRange(nodes, nodes[path[0]].parentName, path[1..]);
      forall k | 0 <= k < |path| ensures path[k] < |nodes| {
        if k > 0 { assert path[k] == path[1..][k - 1]; }
      }
    }
  }

  /** The chain that a climb with that much fuel follows. */
  lemma {:induction false} ClimbedChain(nodes: seq<NodeDef>, parent: string, fuel: nat) returns (path: seq<nat>)
    ensures IsChain(nodes, parent, path) && |path| == Climb(nodes, parent, fuel)
    ensures |path| < fuel ==> IsFullChain(nodes, parent, path)
    decreases fuel
  {
    path := [];
    if fuel > 0 && parent != "" && 0 <= Find(nodes, parent) {
      var rest := ClimbedChain(nodes, nodes[Find(nodes, parent)].parentName, fuel - 1);
      path := [Find(nodes, parent) as nat] + rest;
      assert path[1..] == rest;
    }
  }

  /** Every node either has a full chain, of at most as many steps as there are entries, and its
      capped length for depth; or it hangs on a cycle, where its depth is 32. */
  lemma DepthDichotomy(nodes: seq<NodeDef>, node: NodeDef)
    ensures (exists path :: IsFullChain(nodes, node.parentName, path) && |path| <= |nodes|
                            && Depth(nodes, node) == if |path| <= DEPTH_CAP then |path| else DEPTH_CAP)
         || (Depth(nodes, node) == DEPTH_CAP && forall fuel: nat :: Climb(nodes, node.parentName, fuel) == fuel)
  {
    var path := ClimbedChain(nodes, node.parentName, |nodes| + 1);
    if |path| <= |nodes| {
      DepthIsCappedLength(nodes, node, path);
    } else {
      ChainInRange(nodes, node.parentName, path);
      var i, j := Pigeonhole(path, |nodes|);
      forall fuel: nat ensures Climb(nodes, node.parentName, fuel) == fuel {
        CycleClimbs(nodes, node.parentName, path, i, j, fuel);
      }
    }
  }

  // ---------- the exchange sort ----------

  ghost predicate SortedByDepth(nodes: seq<NodeDef>, s: seq<NodeDef>) {
    forall i, j :: 0 <= i < j < |s| ==> Depth(nodes, s[i]) <= Depth(nodes, s[j])
  }

  /** The inner loop: bring the least of `s[i]`, `s[j]`, `s[j+1]`, ... to position i. */
  function Exchange(nodes: seq<NodeDef>, s: seq<NodeDef>, i: nat, j: nat): (r: seq<NodeDef>)
    requires i < j <= |s|
    ensures |r| == |s|
    decreases |s| - j
  {
    if j == |s| then s
    else if Depth(nodes, s[j]) < Depth(nodes, s[i]) then Exchange(nodes, s[i := s[j]][j := s[i]], i, j + 1)
    else Exchange(nodes, s, i, j + 1)
  }

  function ExchangeFrom(nodes: seq<NodeDef>, s: seq<NodeDef>, i: nat): (r: seq<NodeDef>)
    ensures |r| == |s|
    decreases |s| - i
  {
    if i + 1 >= |s| then s else ExchangeFrom(nodes, Exchange(nodes, s, i, i + 1), i + 1)
  }

  function SortByDepth(nodes: seq<NodeDef>): seq<NodeDef> {
    ExchangeFrom(nodes, nodes, 0)
  }

  lemma SwapKeeps(s: seq<NodeDef>, i: nat, j: nat)
    requires i < j < |s|
    ensures multiset(s[i := s[j]][j := s[i]]) == multiset(s)
    ensures Distinct(s) ==> Distinct(s[i := s[j]][j := s[i]])
    ensures s[i := s[j]][j := s[i]][..i] == s[..i]
  {
  }

  lemma {:induction false} ExchangePermutes(nodes: seq<NodeDef>, s: seq<NodeDef>, i: nat, j: nat)
    requires i < j <= |s|
    ensures multiset(Exchange(nodes, s, i, j)) == multiset(s)
    ensures Distinct(s) ==> Distinct(Exchange(nodes, s, i, j))
    ensures Exchange(nodes, s, i, j)[..i] == s[..i]
    decreases |s| - j
  {
    if j < |s| {
      if Depth(nodes, s[j]) < Depth(nodes, s[i]) {
        SwapKeeps(s, i, j);
        ExchangePermutes(nodes, s[i := s[j]][j := s[i]], i, j + 1);
      } else {
        ExchangePermutes(nodes, s, i, j + 1);
      }
    }
  }

  ghost predicate AtLeast(nodes: seq<NodeDef>, s: seq<NodeDef>, i: nat, bound: int) {
    forall k :: i <= k < |s| ==> bound <= Depth(nodes, s[k])
  }

  lemma SwapKeepsBound(nodes: seq<NodeDef>, s: seq<NodeDef>, t: seq<NodeDef>, i: nat, j: nat, bound: int)
    requires i < j < |s| && t == s[i := s[j]][j := s[i]] && AtLeast(nodes, s, i, bound)
    ensures AtLeast(nodes, t, i, bound)
  {
  }

  /** The element at i is no deeper than those after it before position j. */
  ghost predicate LeastUntil(nodes: seq<NodeDef>, s: seq<NodeDef>, i: nat, j: nat)
    requires i < j <= |s|
  {
    forall k :: i < k < j ==> Depth(nodes, s[i]) <= Depth(nodes, s[k])
  }

  lemma SwapMakesLeast(nodes: seq<NodeDef>, s: seq<NodeDef>, t: seq<NodeDef>, i: nat, j: nat)
    requires i < j < |s| && t == s[i := s[j]][j := s[i]] && LeastUntil(nodes, s, i, j)
    requires Depth(nodes, s[j]) < Depth(nodes, s[i])
    ensures LeastUntil(nodes, t, i, j + 1)
  {
    assert t[i] == s[j] && t[j] == s[i];
    assert forall k :: i < k < j ==> t[k] == s[k];
  }

  lemma {:induction false} ExchangeKeepsBound(nodes: seq<NodeDef>, s: seq<NodeDef>, i: nat, j: nat, bound: int)
    requires i < j <= |s| && AtLeast(nodes, s, i, bound)
    ensures AtLeast(nodes, Exchange(nodes, s, i, j), i, bound)
    decreases |s| - j
  {
    if j < |s| {
      if Depth(nodes, s[j]) < Depth(nodes, s[i]) {
        var t := s[i := s[j]][j := s[i]];
        SwapKeepsBound(nodes, s, t, i, j, bound);
        ExchangeKeepsBound(nodes, t, i, j + 1, bound);
      } else {
        ExchangeKeepsBound(nodes, s, i, j + 1, bound);
      }
    }
  }

  lemma {:induction false} ExchangePicksLeast(nodes: seq<NodeDef>, s: seq<NodeDef>, i: nat, j: nat)
    requires i < j <= |s| && LeastUntil(nodes, s, i, j)
    ensures AtLeast(nodes, Exchange(nodes, s, i, j), i, Depth(nodes, Exchange(nodes, s, i, j)[i]))
    decreases |s| - j
  {
    if j < |s| {
      if Depth(nodes, s[j]) < Depth(nodes, s[i]) {
        var t := s[i := s[j]][j := s[i]];
        SwapMakesLeast(nodes, s, t, i, j);
        ExchangePicksLeast(nodes, t, i, j + 1);
      } else {
        ExchangePicksLeast(nodes, s, i, j + 1);
      }
    }
  }

  /** The first i elements are in place: each is least among those from its position on. */
  ghost predicate Placed(nodes: seq<NodeDef>, s: seq<NodeDef>, i: nat)
    requires i <= |s|
  {
    forall a :: 0 <= a < i ==> AtLeast(nodes, s, a, Depth(nodes, s[a]))
  }

  lemma RowKeepsPlaced(nodes: seq<NodeDef>, s: seq<NodeDef>, t: seq<NodeDef>, i: nat, a: nat)
    requires a < i < |s| == |t| && t[..i] == s[..i] && AtLeast(nodes, s, a, Depth(nodes, s[a]))
    requires AtLeast(nodes, t, i, Depth(nodes, s[a]))
    ensures AtLeast(nodes, t, a, Depth(nodes, t[a]))
  {
    assert forall k :: 0 <= k < i ==> t[k] == t[..i][k] == s[..i][k] == s[k];
  }

  lemma RowKeepsOne(nodes: seq<NodeDef>, s: seq<NodeDef>, i: nat, a: nat)
    requires a < i < |s| && AtLeast(nodes, s, a, Depth(nodes, s[a]))
    ensures AtLeast(nodes, Exchange(nodes, s, i, i + 1), a, Depth(nodes, Exchange(nodes, s, i, i + 1)[a]))
  {
    ExchangePermutes(nodes, s, i, i + 1);
    ExchangeKeepsBound(nodes, s, i, i + 1, Depth(nodes, s[a]));
    RowKeepsPlaced(nodes, s, Exchange(nodes, s, i, i + 1), i, a);
  }

  lemma RowPlacesNext(nodes: seq<NodeDef>, s: seq<NodeDef>, i: nat)
    requires i < |s| && Placed(nodes, s, i)
    ensures Placed(nodes, Exchange(nodes, s, i, i + 1), i + 1)
  {
    var t := Exchange(nodes, s, i, i + 1);
    ExchangePicksLeast(nodes, s, i, i + 1);
    forall a | 0 <= a < i ensures AtLeast(nodes, t, a, Depth(nodes, t[a])) {
      RowKeepsOne(nodes, s, i, a);
    }
  }

  lemma PlacedIsSorted(nodes: seq<NodeDef>, s: seq<NodeDef>, i: nat)
    requires i <= |s| <= i + 1 && Placed(nodes, s, i)
    ensures SortedByDepth(nodes, s)
  {
    forall a, b | 0 <= a < b < |s| ensures Depth(nodes, s[a]) <= Depth(nodes, s[b]) {
      assert AtLeast(nodes, s, a, Depth(nodes, s[a]));
    }
  }

  lemma {:induction false} ExchangeSorts(nodes: seq<NodeDef>, s: seq<NodeDef>, i: nat)
    requires i <= |s| && Placed(nodes, s, i)
    ensures multiset(ExchangeFrom(nodes, s, i)) == multiset(s)
    ensures Distinct(s) ==> Distinct(ExchangeFrom(nodes, s, i))
    ensures SortedByDepth(nodes, ExchangeFrom(nodes, s, i))
    decreases |s| - i
  {
    if i + 1 < |s| {
      ExchangePermutes(nodes, s, i, i + 1);
      RowPlacesNext(nodes, s, i);
      ExchangeSorts(nodes, Exchange(nodes, s, i, i + 1), i + 1);
    } else {
      PlacedIsSorted(nodes, s, i);
    }
  }

  /** The sort is a permutation of the entries in non-decreasing depth. */
  lemma SortIsSorted(nodes: seq<NodeDef>)
    ensures multiset(SortByDepth(nodes)) == multiset(nodes)
    ensures SortedByDepth(nodes, SortByDepth(nodes))
    ensures Distinct(nodes) ==> Distinct(SortByDepth(nodes))
  {
    ExchangeSorts(nodes, nodes, 0);
  }

  /** The inner loop of the source's sort, in place. */
  method ExchangeRow(nodes: seq<NodeDef>, sorted: array<NodeDef>, n: nat, i: nat)
    requires i < n <= sorted.Length
    modifies sorted
    ensures sorted[..n] == Exchange(nodes, old(sorted[..n]), i, i + 1)
  {
    ghost var row := sorted[..n];
    var j := i + 1;
    while j < n
      invariant i + 1 <= j <= n
      invariant Exchange(nodes, sorted[..n], i, j) == Exchange(nodes, row, i, i + 1)
    {
      var dj := NodeDepth(nodes, sorted[j]);
      var di := NodeDepth(nodes, sorted[i]);
      ghost var before := sorted[..n];
      assert before[j] == sorted[j] && before[i] == sorted[i];
      if dj < di {
        var tmp := sorted[i];
        sorted[i] := sorted[j];
        sorted[j] := tmp;
        assert sorted[..n] == before[i := before[j]][j := before[i]];
      }
      j := j + 1;
    }
  }

  /** The sort of the source: copy the entries, then exchange row by row. */
  method SortNodesByDepth(nodes: seq<NodeDef>, sorted: array<NodeDef>)
    requires |nodes| <= sorted.Length
    modifies sorted
    ensures sorted[..|nodes|] == SortByDepth(nodes)
  {
    var n := |nodes|;
    var i := 0;
    while i < n
      invariant 0 <= i <= n
      invariant sorted[..i] == nodes[..i]
    {
      sorted[i] := nodes[i];
      i := i + 1;
    }
    assert sorted[..n] == nodes;
    i := 0;
    while i + 1 < n
      invariant 0 <= i
      invariant ExchangeFrom(nodes, sorted[..n], i) == SortByDepth(nodes)
    {
      ExchangeRow(nodes, sorted, n, i);
      i := i + 1;
    }
  }

  // ---------- parents come first ----------

  /** No chain is longer than the cap. */
  ghost predicate Shallow(nodes: seq<NodeDef>) {
    forall d :: d in nodes ==> Climb(nodes, d.parentName, DEPTH_CAP + 1) <= DEPTH_CAP
  }

  lemma {:induction false} ClimbSettles(nodes: seq<NodeDef>, parent: string, fuel: nat)
    requires Climb(nodes, parent, fuel + 1) <= fuel
    ensures Climb(nodes, parent, fuel) == Climb(nodes, parent, fuel + 1)
    decreases fuel
  {
    if fuel > 0 && parent != "" && 0 <= Find(nodes, parent) {
      ClimbSettles(nodes, nodes[Find(nodes, parent)].parentName, fuel - 1);
    }
  }

  /** Below the cap a child is exactly one deeper than its parent. */
  lemma ChildIsDeeper(nodes: seq<NodeDef>, d: NodeDef)
    requires Shallow(nodes) && d in nodes && d.parentName != "" && 0 <= Find(nodes, d.parentName)
    ensures Depth(nodes, d) == 1 + Depth(nodes, nodes[Find(nodes, d.parentName)])
  {
    var p := nodes[Find(nodes, d.parentName)];
    ClimbSettles(nodes, d.parentName, DEPTH_CAP);
    ClimbSettles(nodes, p.parentName, DEPTH_CAP);
  }

  lemma ShallowerIsEarlier(nodes: seq<NodeDef>, s: seq<NodeDef>, i: nat, p: NodeDef)
    requires SortedByDepth(nodes, s) && i < |s| && p in s && Depth(nodes, p) < Depth(nodes, s[i])
    ensures p in s[..i]
  {
    var j :| 0 <= j < |s| && s[j] == p;
    assert s[..i][j] == p;
  }

  /** So in the sorted order every parent that exists comes before its children. */
  lemma ParentsFirst(nodes: seq<NodeDef>, s: seq<NodeDef>, i: nat)
    requires Shallow(nodes) && multiset(s) == multiset(nodes) && SortedByDepth(nodes, s) && i < |s|
    requires s[i].parentName != "" && s[i].parentName in Names(nodes)
    ensures s[i].parentName in Names(s[..i])
  {
    var d := s[i];
    assert d in multiset(nodes);
    ChildIsDeeper(nodes, d);
    var p := nodes[Find(nodes, d.parentName)];
    assert p in multiset(s);
    ShallowerIsEarlier(nodes, s, i, p);
  }
}

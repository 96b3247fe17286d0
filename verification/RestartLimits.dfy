/** What the persistence of edits means for edits under existing parents, and what a restart does
    where its conditions fail: an emptied configuration, and a chain deeper than 32. */
module RestartLimits {
  import opened Wrappers
  import opened ServerConfig
  import opened NodeTree
  import opened Simulation
  import opened AddressSpace
  import opened EditRuns
  import opened Agreement
  import opened Interleavings
  import opened Restart

  /** Edits persist: after any run of whole or interleaved adds and deletes from a configuration
      without dangling parents, in which each add names no parent or an existing one and none
      meets a full configuration, and which leaves at least one node and no chain deeper than
      32, a restart rebuilds the same tree with the same simulated sensors. */
  lemma EditsUnderExistingParentsPersist(file: File, ops: seq<Op>)
    requires Load(file).Some? && Proper(Load(file).value.nodes) && Shallow(Load(file).value.nodes)
      && Closed(Load(file).value.nodes)
    requires Startup(file, {}).Some?
    requires var w := World(Startup(file, {}).value, map[]);
      RunsBelowCapacity(w, ops) && RunNamesExisting(w, ops)
      && RunOps(w, ops).s.nodes != [] && Shallow(RunOps(w, ops).s.nodes)
    ensures var live := RunOps(World(Startup(file, {}).value, map[]), ops).s;
      Startup(live.disk, {}).Some?
      && Startup(live.disk, {}).value.server == live.server
      && SensorNames(Startup(live.disk, {}).value.sim.sensors) == SensorNames(live.sim.sensors)
      && SameShape(Startup(live.disk, {}).value.nodes, live.nodes)
  {
    StartupAgrees(file, {});
    ExistingParentsKeepClaims(World(Startup(file, {}).value, map[]), ops);
    EditsPersist(file, ops);
  }

  // ---------- an emptied configuration ----------

  /** A restart keeps the configured nodes exactly when there are any: an emptied configuration
      is saved, but comes back as the default nodes. */
  lemma RestartKeepsNodesIff(s: State)
    requires InStep(s) && DiskCurrent(s)
    ensures Startup(s.disk, {}).Some?
    ensures SameShape(Startup(s.disk, {}).value.nodes, s.nodes) <==> s.nodes != []
    ensures s.nodes == [] ==> Startup(s.disk, {}).value.nodes == Defaults().nodes
  {
    if s.nodes == [] {
      DefaultsAreProper();
    } else {
      SameShapeSame(Load(s.disk).value.nodes, s.nodes);
    }
    StartupAgrees(s.disk, {});
  }

  /** Deleting the last node of a configuration is such a case. */
  lemma LastDeleteIsUndone(s: State, name: string)
    requires InStep(s) && DiskCurrent(s) && |s.nodes| == 1 && DeleteStatus(s, name) == Good
    ensures var t := Delete(s, name, {});
      t.nodes == [] && t.server == map[] && Startup(t.disk, {}).Some?
        && Startup(t.disk, {}).value.nodes == Defaults().nodes
  {
    var t := Delete(s, name, {});
    DeleteAgrees(s, name, {});
    DeleteIsCurrent(s, name, {});
    RestartKeepsNodesIff(t);
    assert t.server.Keys == Names(t.nodes) == {};
  }

  // ---------- a chain deeper than the cap ----------

  const LAST := 33

  function ChainName(i: nat): (n: string)
    ensures |n| == i + 1 && n[0] == 'n'
  {
    seq(i + 1, _ => 'n')
  }

  function ParentOf(i: nat): string {
    if i == 0 then "" else ChainName(i - 1)
  }

  function Link(i: nat): NodeDef {
    NodeDef(FOLDER, ChainName(i), "", ParentOf(i), Boolean, false, "")
  }

  const LONE := NodeDef(FOLDER, "z", "", "", Boolean, false, "")

  /** A chain of 34 folders, written parents first, and one more folder under Objects. */
  function DeepNodes(): (nodes: seq<NodeDef>)
    ensures |nodes| == LAST + 2
  {
    seq(LAST + 1, i requires 0 <= i => Link(i)) + [LONE]
  }

  lemma FindsLink(nodes: seq<NodeDef>, i: nat)
    requires nodes == DeepNodes() && i <= LAST
    ensures Find(nodes, ChainName(i)) == i && nodes[i].parentName == ParentOf(i)
  {
    assert nodes[i] == Link(i) && nodes[i] in nodes;
    var k := Find(nodes, ChainName(i));
    assert k >= 0;
    if k <= LAST {
      assert nodes[k] == Link(k) && |ChainName(k)| == k + 1;
    }
  }

  /** A climb goes from the k-th name to the one before. */
  ghost predicate Rung(nodes: seq<NodeDef>, names: seq<string>, k: nat)
    requires k < |names|
  {
    0 < k ==> names[k] != "" && 0 <= Find(nodes, names[k]) && nodes[Find(nodes, names[k])].parentName == names[k - 1]
  }

  lemma {:induction false} LadderClimbs(nodes: seq<NodeDef>, names: seq<string>, i: nat, fuel: nat)
    requires i < |names| && names[0] == "" && forall k: nat :: k < |names| ==> Rung(nodes, names, k)
    ensures Climb(nodes, names[i], fuel) == if i <= fuel then i else fuel
    decreases fuel
  {
    if i > 0 && fuel > 0 {
      assert Rung(nodes, names, i);
      LadderClimbs(nodes, names, i - 1, fuel - 1);
    }
  }

  function ChainNames(): (names: seq<string>)
    ensures |names| == LAST + 1 && forall k :: 0 <= k < |names| ==> names[k] == ParentOf(k)
  {
    seq(LAST + 1, k requires 0 <= k => ParentOf(k))
  }

  lemma ChainRung(nodes: seq<NodeDef>, names: seq<string>, k: nat)
    requires nodes == DeepNodes() && names == ChainNames() && k <= LAST
    ensures Rung(nodes, names, k)
  {
    if k > 0 {
      FindsLink(nodes, k - 1);
    }
  }

  lemma LinkDepth(nodes: seq<NodeDef>, i: nat)
    requires nodes == DeepNodes() && i <= LAST
    ensures Depth(nodes, Link(i)) == if i <= DEPTH_CAP then i else DEPTH_CAP
    ensures Depth(nodes, LONE) == 0
  {
    var names := ChainNames();
    forall k: nat | k <= LAST ensures Rung(nodes, names, k) {
      ChainRung(nodes, names, k);
    }
    LadderClimbs(nodes, names, i, DEPTH_CAP);
  }

  /** The entry at position p before row k of the sort: the lone folder has moved to position 1,
      and the links it pushed out pass through the last position one after the other. */
  function RowEntry(k: nat, p: nat): NodeDef
    requires 1 <= k && p <= LAST + 1
  {
    if p == LAST + 1 then (if k == 1 then LONE else Link(k - 1))
    else if p == 0 then Link(0)
    else if p >= k then Link(p)
    else if p == 1 then LONE
    else Link(p - 1)
  }

  function Row(k: nat): (r: seq<NodeDef>)
    requires 1 <= k
    ensures |r| == LAST + 2 && forall p :: 0 <= p < |r| ==> r[p] == RowEntry(k, p)
  {
    seq(LAST + 2, p requires 0 <= p <= LAST + 1 => RowEntry(k, p))
  }

  /** Nothing is exchanged where nothing is less deep. */
  lemma {:induction false} Quiet(nodes: seq<NodeDef>, s: seq<NodeDef>, i: nat, j: nat, m: nat)
    requires i < j <= m <= |s| && forall p :: j <= p < m ==> Depth(nodes, s[i]) <= Depth(nodes, s[p])
    ensures Exchange(nodes, s, i, j) == Exchange(nodes, s, i, m)
    decreases m - j
  {
    if j < m {
      Quiet(nodes, s, i, j + 1, m);
    }
  }

  lemma LastExchange(nodes: seq<NodeDef>, s: seq<NodeDef>, i: nat, j: nat)
    requires i < j && j + 1 == |s|
    ensures Exchange(nodes, s, i, j) == if Depth(nodes, s[j]) < Depth(nodes, s[i]) then s[i := s[j]][j := s[i]] else s
  {
  }

  lemma RowIsQuiet(nodes: seq<NodeDef>, s: seq<NodeDef>, k: nat)
    requires nodes == DeepNodes() && 1 <= k <= LAST && s == Row(k)
    ensures forall p :: k < p <= LAST ==> Depth(nodes, s[k]) <= Depth(nodes, s[p])
  {
    assert s[k] == Link(k);
    LinkDepth(nodes, k);
    forall p | k < p <= LAST ensures Depth(nodes, s[k]) <= Depth(nodes, s[p]) {
      assert s[p] == Link(p);
      LinkDepth(nodes, p);
    }
  }

  lemma RowSwaps(s: seq<NodeDef>, k: nat)
    requires 1 <= k < LAST && s == Row(k)
    ensures s[k := s[LAST + 1]][LAST + 1 := s[k]] == Row(k + 1)
  {
  }

  lemma DepthOrder(nodes: seq<NodeDef>, a: NodeDef, b: NodeDef, k: nat)
    requires 1 <= k <= LAST
    requires Depth(nodes, a) == if k <= DEPTH_CAP then k else DEPTH_CAP
    requires Depth(nodes, b) == if k == 1 then 0 else k - 1
    ensures Depth(nodes, b) < Depth(nodes, a) <==> k < LAST
  {
  }

  lemma RowAt(s: seq<NodeDef>, k: nat)
    requires 1 <= k <= LAST && s == Row(k)
    ensures s[k] == Link(k) && s[LAST + 1] == if k == 1 then LONE else Link(k - 1)
  {
  }

  lemma LastDepth(nodes: seq<NodeDef>, d: NodeDef, k: nat)
    requires nodes == DeepNodes() && 1 <= k <= LAST && d == if k == 1 then LONE else Link(k - 1)
    ensures Depth(nodes, d) == if k == 1 then 0 else k - 1
  {
    LinkDepth(nodes, k - 1);
  }

  lemma RowEnds(nodes: seq<NodeDef>, s: seq<NodeDef>, k: nat)
    requires nodes == DeepNodes() && 1 <= k <= LAST && s == Row(k)
    ensures Depth(nodes, s[LAST + 1]) < Depth(nodes, s[k]) <==> k < LAST
  {
    RowAt(s, k);
    LinkDepth(nodes, k);
    LastDepth(nodes, s[LAST + 1], k);
    DepthOrder(nodes, s[k], s[LAST + 1], k);
  }

  lemma RowStep(nodes: seq<NodeDef>, s: seq<NodeDef>, k: nat)
    requires nodes == DeepNodes() && 1 <= k <= LAST && s == Row(k)
    ensures Exchange(nodes, s, k, k + 1) == if k < LAST then Row(k + 1) else s
  {
    RowIsQuiet(nodes, s, k);
    RowEnds(nodes, s, k);
    Quiet(nodes, s, k, k + 1, LAST + 1);
    LastExchange(nodes, s, k, LAST + 1);
    if k < LAST {
      RowSwaps(s, k);
    }
  }

  lemma {:induction false} RowsFollow(nodes: seq<NodeDef>, k: nat)
    requires nodes == DeepNodes() && 1 <= k <= LAST
    ensures ExchangeFrom(nodes, Row(k), k) == Row(LAST)
    decreases LAST - k
  {
    RowStep(nodes, Row(k), k);
    if k < LAST {
      RowsFollow(nodes, k + 1);
    } else {
      assert ExchangeFrom(nodes, Row(LAST), LAST + 1) == Row(LAST);
    }
  }

  /** The capped depths of the last two links are equal, so the sort leaves the last link before
      its parent. */
  lemma DeepSort(nodes: seq<NodeDef>)
    requires nodes == DeepNodes()
    ensures SortByDepth(nodes) == Row(LAST)
    ensures Row(LAST)[LAST] == Link(LAST) && Row(LAST)[LAST + 1] == Link(LAST - 1)
  {
    assert nodes == Row(1);
    LinkDepth(nodes, 0);
    Quiet(nodes, nodes, 0, 1, |nodes|);
    RowsFollow(nodes, 1);
  }

  lemma ParentComesLast(sorted: seq<NodeDef>)
    requires sorted == Row(LAST)
    ensures ChainName(LAST - 1) !in Names(sorted[..LAST])
  {
    forall d | d in sorted[..LAST] ensures d.browseName != ChainName(LAST - 1) {
      var p :| 0 <= p < LAST && sorted[p] == d;
      assert LONE.browseName[0] == 'z';
    }
  }

  lemma DeepNodesReload(uri: string)
    requires |uri| < NAMESPACE_MAX
    ensures Load(Tree(ToJson(Config(uri, DeepNodes())))) == Some(Config(uri, DeepNodes()))
  {
    var nodes := DeepNodes();
    forall i | 0 <= i < |nodes| ensures Fits(nodes[i]) && nodes[i].dataType == Boolean {
      if i <= LAST {
        assert nodes[i] == Link(i);
      }
    }
    LoadSavedIsIdentity(Config(uri, nodes));
  }

  /** The bound of 32 on chains is needed: a live tree with this chain of 34 folders, where every
      folder is under its named parent, does not survive a restart; the deepest folder comes
      back under Objects. */
  lemma DeepChainMoves(s: State)
    requires InStep(s) && Faithful(s) && s.nodes == DeepNodes()
    requires |s.uri| < NAMESPACE_MAX && s.disk == Tree(ToJson(Config(s.uri, s.nodes)))
    ensures ChainName(LAST) in s.server && s.server[ChainName(LAST)] == Named(ChainName(LAST - 1))
    ensures var r := Startup(s.disk, {});
      r.Some? && r.value.nodes == s.nodes && ChainName(LAST) in r.value.server
        && r.value.server[ChainName(LAST)] == Objects
  {
    DeepNodesReload(s.uri);
    DeepSort(s.nodes);
    StartupAgrees(s.disk, {});
    ParentComesLast(SortByDepth(s.nodes));
    LinksConfigured(s.nodes);
  }

  lemma LinksConfigured(nodes: seq<NodeDef>)
    requires nodes == DeepNodes()
    ensures Link(LAST) in nodes && Link(LAST).parentName == ChainName(LAST - 1) && ChainName(LAST - 1) in Names(nodes)
  {
    assert nodes[LAST] == Link(LAST) && nodes[LAST - 1] == Link(LAST - 1);
  }

  // ---------- the chain is reached by adds ----------

  /** A live tree that is in step, faithful, and saved as it is. */
  ghost predicate Sound(s: State, nodes: seq<NodeDef>, uri: string) {
    InStep(s) && Faithful(s) && s.nodes == nodes && s.uri == uri && s.disk == Tree(ToJson(Config(uri, nodes)))
  }

  lemma StartsSound(uri: string, nodes: seq<NodeDef>)
    requires |uri| < NAMESPACE_MAX && Proper(nodes) && Shallow(nodes)
      && Load(Tree(ToJson(Config(uri, nodes)))) == Some(Config(uri, nodes))
    ensures Startup(Tree(ToJson(Config(uri, nodes))), {}).Some?
    ensures Sound(Startup(Tree(ToJson(Config(uri, nodes))), {}).value, nodes, uri)
  {
    var file := Tree(ToJson(Config(uri, nodes)));
    StartupAgrees(file, {});
    PlacedFaithfullyIff(Startup(file, {}).value);
  }

  /** A willing server takes a new name that nothing claims, below any parent name. */
  lemma AddsSoundly(s: State, nodes: seq<NodeDef>, uri: string, r: Request)
    requires Sound(s, nodes, uri) && |nodes| < MAX_NODES && Precheck(nodes, r) == Good && Unclaimed(nodes, DefOf(r))
    ensures Sound(Commit(s, DefOf(r), true), nodes + [DefOf(r)], uri)
  {
    ResolvesToTarget(s.slots, nodes, DefOf(r).parentName);
    CommitAgrees(s, DefOf(r), true);
    CommitFaithfulIff(s, DefOf(r), true);
  }

  function FolderAdd(parent: string, name: string): Op {
    Add(FolderRequest(parent, name, ""), true)
  }

  /** Adds of the links 1 to k, each below the one before. */
  function LinkAdds(k: nat): (ops: seq<Op>)
    ensures |ops| == k
  {
    if k == 0 then [] else LinkAdds(k - 1) + [FolderAdd(ParentOf(k), ChainName(k))]
  }

  function Links(k: nat): (nodes: seq<NodeDef>)
    ensures |nodes| == k + 1 && forall i :: 0 <= i < |nodes| ==> nodes[i] == Link(i)
  {
    seq(k + 1, i requires 0 <= i => Link(i))
  }

  lemma NextLink(nodes: seq<NodeDef>, k: nat)
    requires 0 < k <= LAST && nodes == Links(k - 1)
    ensures var r := FolderRequest(ParentOf(k), ChainName(k), "");
      Precheck(nodes, r) == Good && DefOf(r) == Link(k) && Unclaimed(nodes, Link(k)) && nodes + [Link(k)] == Links(k)
  {
    forall d | d in nodes ensures d.browseName != ChainName(k) && d.parentName != ChainName(k) {
      var i :| 0 <= i < |nodes| && nodes[i] == d;
      assert |ChainName(i)| == i + 1;
    }
    UnclaimedMeans(nodes, Link(k));
  }

  lemma {:induction false} LinksAreAdded(w: World, uri: string, k: nat)
    requires k <= LAST && Sound(w.s, Links(0), uri)
    ensures Sound(RunOps(w, LinkAdds(k)).s, Links(k), uri) && RunsBelowCapacity(w, LinkAdds(k))
  {
    if k > 0 {
      LinksAreAdded(w, uri, k - 1);
      NextLink(Links(k - 1), k);
      AddsSoundly(RunOps(w, LinkAdds(k - 1)).s, Links(k - 1), uri, FolderRequest(ParentOf(k), ChainName(k), ""));
      RunSnoc(w, LinkAdds(k - 1), FolderAdd(ParentOf(k), ChainName(k)));
    }
  }

  lemma NextLone(nodes: seq<NodeDef>)
    requires nodes == Links(LAST)
    ensures var r := FolderRequest("", "z", "");
      Precheck(nodes, r) == Good && DefOf(r) == LONE && Unclaimed(nodes, LONE) && nodes + [LONE] == DeepNodes()
  {
    forall d | d in nodes ensures d.browseName != "z" && d.parentName != "z" {
      var i :| 0 <= i < |nodes| && nodes[i] == d;
      assert ChainName(i)[0] == 'n' && "z"[0] == 'z';
    }
    UnclaimedMeans(nodes, LONE);
  }

  lemma FirstLinkStarts(uri: string)
    requires |uri| < NAMESPACE_MAX
    ensures Startup(Tree(ToJson(Config(uri, Links(0)))), {}).Some?
    ensures Sound(Startup(Tree(ToJson(Config(uri, Links(0)))), {}).value, Links(0), uri)
  {
    var nodes := Links(0);
    forall d | d in nodes ensures d == Link(0) {
    }
    assert nodes[0] in nodes;
    LoadSavedIsIdentity(Config(uri, nodes));
    StartsSound(uri, nodes);
  }

  function DeepRun(): seq<Op> {
    LinkAdds(LAST) + [FolderAdd("", "z")]
  }

  lemma DeepRunIsSound(w: World, uri: string)
    requires Sound(w.s, Links(0), uri)
    ensures Sound(RunOps(w, DeepRun()).s, DeepNodes(), uri) && RunsBelowCapacity(w, DeepRun())
  {
    LinksAreAdded(w, uri, LAST);
    NextLone(Links(LAST));
    AddsSoundly(RunOps(w, LinkAdds(LAST)).s, Links(LAST), uri, FolderRequest("", "z", ""));
    RunSnoc(w, LinkAdds(LAST), FolderAdd("", "z"));
  }

  /** A run of adds from a started server reaches that chain; the tree it leaves is faithful, and a
      restart does not rebuild it. */
  lemma DeepChainIsReached(uri: string)
    requires |uri| < NAMESPACE_MAX
    ensures var start := Startup(Tree(ToJson(Config(uri, Links(0)))), {});
      start.Some? && RunsBelowCapacity(World(start.value, map[]), DeepRun())
      && var live := RunOps(World(start.value, map[]), DeepRun()).s;
      Faithful(live) && live.nodes == DeepNodes()
      && Startup(live.disk, {}).Some? && Startup(live.disk, {}).value.server != live.server
  {
    FirstLinkStarts(uri);
    var w := World(Startup(Tree(ToJson(Config(uri, Links(0)))), {}).value, map[]);
    DeepRunIsSound(w, uri);
    DeepChainMoves(RunOps(w, DeepRun()).s);
  }

  // ---------- a cycle ----------

  const CYCLE_A := NodeDef(FOLDER, "a", "", "b", Boolean, false, "")
  const CYCLE_B := NodeDef(FOLDER, "b", "", "a", Boolean, false, "")

  lemma CycleDepth(nodes: seq<NodeDef>, a: NodeDef, b: NodeDef)
    requires nodes == [a, b] && a == CYCLE_A && b == CYCLE_B
    ensures Depth(nodes, a) == DEPTH_CAP && Depth(nodes, b) == DEPTH_CAP
  {
    var path: seq<nat> := [1, 0, 1];
    assert nodes[0] in nodes && nodes[1] in nodes;
    assert Find(nodes, "b") == 1 && Find(nodes, "a") == 0;
    assert path[1..] == [0, 1] && path[1..][1..] == [1] && path[2..][1..] == [];
    assert IsChain(nodes, "b", path[2..]);
    assert IsChain(nodes, "a", path[1..]);
    CycleClimbs(nodes, "b", path, 0, 2, DEPTH_CAP);
    CycleClimbs(nodes, "b", path, 0, 2, DEPTH_CAP + 1);
    ClimbOne(nodes, "b", 1, "a", DEPTH_CAP + 1);
  }

  lemma CycleSort(nodes: seq<NodeDef>, a: NodeDef, b: NodeDef)
    requires nodes == [a, b] && a == CYCLE_A && b == CYCLE_B
    ensures SortByDepth(nodes) == nodes
  {
    CycleDepth(nodes, a, b);
    LastExchange(nodes, nodes, 0, 1);
    assert Exchange(nodes, nodes, 0, 1) == nodes;
    assert ExchangeFrom(nodes, nodes, 1) == nodes;
  }

  lemma CycleInOrder(server: map<string, NodeId>, nodes: seq<NodeDef>, a: NodeDef, b: NodeDef)
    requires nodes == [a, b] && a == CYCLE_A && b == CYCLE_B && server == map["a" := Objects, "b" := Named("a")]
    ensures PlacedInOrder(server, nodes) && !PlacedBy(server, nodes, Names(nodes))
  {
    assert a in nodes && b in nodes;
    assert nodes[..0] == [] && nodes[..1] == [a];
    assert Names([a]) == {"a"} by { assert a in [a]; }
    assert Names([]) == {};
    assert "b" in Names(nodes);
  }

  lemma CycleReloads(uri: string, nodes: seq<NodeDef>)
    requires |uri| < NAMESPACE_MAX && nodes == [CYCLE_A, CYCLE_B]
    ensures FitsAll(Config(uri, nodes)) && Load(Tree(ToJson(Config(uri, nodes)))) == Some(Config(uri, nodes))
  {
    LoadSavedIsIdentity(Config(uri, nodes));
  }

  /** A tree need not be where the configuration says to survive a restart: of two folders that
      name each other, the first hangs under Objects, both live and after a restart. */
  lemma CycleReturns(s: State, nodes: seq<NodeDef>)
    requires InStep(s) && s.nodes == nodes == [CYCLE_A, CYCLE_B] && s.server == map["a" := Objects, "b" := Named("a")]
    requires |s.uri| < NAMESPACE_MAX && s.disk == Tree(ToJson(Config(s.uri, nodes)))
    ensures !Faithful(s) && Startup(s.disk, {}).Some? && Startup(s.disk, {}).value.server == s.server
  {
    CycleReloads(s.uri, nodes);
    SavedIsCurrent(s);
    CycleSort(nodes, nodes[0], nodes[1]);
    CycleInOrder(s.server, nodes, nodes[0], nodes[1]);
    LiveTreeReturnsIff(s);
  }

  lemma HalfCycleNodes(uri: string, nodes: seq<NodeDef>)
    requires |uri| < NAMESPACE_MAX && nodes == [CYCLE_A]
    ensures Proper(nodes) && Shallow(nodes) && Names(nodes) == {"a"}
    ensures Load(Tree(ToJson(Config(uri, nodes)))) == Some(Config(uri, nodes))
  {
    assert nodes[0] in nodes && Names(nodes) == {"a"};
    forall d | d in nodes ensures d.parentName == "b" && KnownKind(d) {
    }
    NoClimb(nodes, "b", DEPTH_CAP + 1);
    LoadSavedIsIdentity(Config(uri, nodes));
  }

  lemma NoClimb(nodes: seq<NodeDef>, parent: string, fuel: nat)
    requires Find(nodes, parent) < 0
    ensures Climb(nodes, parent, fuel) == 0
  {
  }

  lemma HalfCycleStarts(uri: string, nodes: seq<NodeDef>)
    requires |uri| < NAMESPACE_MAX && nodes == [CYCLE_A]
    ensures Startup(Tree(ToJson(Config(uri, nodes))), {}).Some?
    ensures var s := Startup(Tree(ToJson(Config(uri, nodes))), {}).value;
      Sound(s, nodes, uri) && s.server == map["a" := Objects]
  {
    HalfCycleNodes(uri, nodes);
    StartsSound(uri, nodes);
    HalfCycleServer(Startup(Tree(ToJson(Config(uri, nodes))), {}).value, nodes, uri);
  }

  lemma HalfCycleServer(s: State, nodes: seq<NodeDef>, uri: string)
    requires Sound(s, nodes, uri) && nodes == [CYCLE_A] && Names(nodes) == {"a"}
    ensures s.server == map["a" := Objects]
  {
    assert nodes[0] in nodes;
  }

  lemma CycleCloses(s: State, nodes: seq<NodeDef>, uri: string)
    requires Sound(s, nodes, uri) && nodes == [CYCLE_A] && s.server == map["a" := Objects]
    ensures var t := Next(World(s, map[]), FolderAdd("a", "b")).s;
      InStep(t) && t.nodes == [CYCLE_A, CYCLE_B] && t.server == map["a" := Objects, "b" := Named("a")]
      && t.uri == uri && t.disk == Tree(ToJson(Config(uri, t.nodes)))
  {
    assert nodes[0] in nodes && Names(nodes) == {"a"};
    AddsBelow(s, nodes, "a", "b");
  }

  /** A willing server takes a new folder below a configured one, and the configuration is saved. */
  lemma AddsBelow(s: State, nodes: seq<NodeDef>, parent: string, name: string)
    requires InStep(s) && s.nodes == nodes && |nodes| < MAX_NODES && parent in Names(nodes)
    requires ValidName(name) && name !in Names(nodes)
    ensures var t := Next(World(s, map[]), FolderAdd(parent, name)).s;
      var def := DefOf(FolderRequest(parent, name, ""));
      InStep(t) && t.nodes == nodes + [def] && def.browseName == name
      && (|parent| < NAME_MAX ==> t.server == s.server[name := Named(parent)])
      && t.uri == s.uri && t.disk == Tree(ToJson(Config(s.uri, nodes + [def])))
  {
    FolderAdded(s, parent, name);
    CommitsBelow(s, nodes, DefOf(FolderRequest(parent, name, "")));
  }

  lemma FolderAdded(s: State, parent: string, name: string)
    requires ValidName(name) && name !in Names(s.nodes)
    ensures var def := DefOf(FolderRequest(parent, name, ""));
      Next(World(s, map[]), FolderAdd(parent, name)).s == Commit(s, def, true) && def.kind == FOLDER
      && def.browseName == name && (|parent| < NAME_MAX ==> def.parentName == parent)
  {
  }

  lemma CommitsBelow(s: State, nodes: seq<NodeDef>, def: NodeDef)
    requires InStep(s) && s.nodes == nodes && |nodes| < MAX_NODES && def.kind == FOLDER
    requires def.browseName !in Names(nodes) && def.browseName != ""
    ensures var t := Commit(s, def, true);
      InStep(t) && t.nodes == nodes + [def]
      && (def.parentName in Names(nodes) ==> t.server == s.server[def.browseName := Named(def.parentName)])
      && t.uri == s.uri && t.disk == Tree(ToJson(Config(s.uri, nodes + [def])))
  {
    ResolvesToTarget(s.slots, nodes, def.parentName);
    CommitAgrees(s, def, true);
    WillingTakes(s, def);
  }

  lemma WillingTakes(s: State, def: NodeDef)
    requires InStep(s) && |s.nodes| < MAX_NODES && def.kind == FOLDER
    requires def.browseName !in Names(s.nodes) && def.browseName != ""
    ensures CanCreate(s, def, true)
  {
    ResolvesToTarget(s.slots, s.nodes, def.parentName);
  }

  /** One add to a started server makes such a cycle. */
  lemma CycleIsReached(uri: string, nodes: seq<NodeDef>)
    requires |uri| < NAMESPACE_MAX && nodes == [CYCLE_A]
    ensures var start := Startup(Tree(ToJson(Config(uri, nodes))), {});
      start.Some?
      && var live := Next(World(start.value, map[]), FolderAdd("a", "b")).s;
      !Faithful(live) && Startup(live.disk, {}).Some? && Startup(live.disk, {}).value.server == live.server
  {
    HalfCycleStarts(uri, nodes);
    var s := Startup(Tree(ToJson(Config(uri, nodes))), {}).value;
    CycleCloses(s, nodes, uri);
    var t := Next(World(s, map[]), FolderAdd("a", "b")).s;
    CycleReturns(t, t.nodes);
  }
}

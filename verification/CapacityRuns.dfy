/** What runs that meet a full configuration of 256 entries can do: an add is not saved, a delete
    removes a node with a child, and a name can come to be configured twice. */
module CapacityRuns {
  import opened Wrappers
  import opened ServerConfig
  import opened NodeTree
  import opened Simulation
  import opened AddressSpace
  import opened EditRuns
  import opened Agreement
  import opened Interleavings
  import opened Restart

  // ---------- an add survives a restart exactly when there is room ----------

  lemma RecordedAddReturns(s: State, r: Request, willing: bool)
    requires InStep(s) && DiskCurrent(s) && ValidName(r.name) && CanCreate(s, DefOf(r), willing)
      && |s.nodes| < MAX_NODES
    ensures var t := Commit(s, DefOf(r), willing);
      InStep(t) && DiskCurrent(t) && Startup(t.disk, {}).Some? && r.name in Startup(t.disk, {}).value.server
  {
    var t := Commit(s, DefOf(r), willing);
    CommitAgrees(s, DefOf(r), willing);
    CommitIsCurrent(s, r, willing);
    RestartKeepsNodes(t);
    assert r.name in t.server;
  }

  lemma UnrecordedAddIsGone(s: State, r: Request, willing: bool)
    requires InStep(s) && DiskCurrent(s) && ValidName(r.name) && CanCreate(s, DefOf(r), willing)
      && |s.nodes| == MAX_NODES
    ensures var t := Commit(s, DefOf(r), willing);
      Startup(t.disk, {}).Some? && r.name !in Startup(t.disk, {}).value.server
  {
    UnrecordedAdd(s, DefOf(r), willing);
    NotBroughtBack(s, Commit(s, DefOf(r), willing).disk, r.name);
  }

  lemma NotBroughtBack(s: State, disk: File, name: string)
    requires InStep(s) && DiskCurrent(s) && s.nodes != [] && disk == s.disk && name !in s.server
    ensures Startup(disk, {}).Some? && name !in Startup(disk, {}).value.server
  {
    RestartKeepsNodes(s);
  }

  lemma UnrecordedAdd(s: State, def: NodeDef, willing: bool)
    requires CanCreate(s, def, willing) && |s.nodes| == MAX_NODES
    ensures Commit(s, def, willing) == With(s, def) && Commit(s, def, willing).disk == s.disk
    ensures def.browseName !in s.server && def.browseName in With(s, def).server
  {
  }

  /** An add that the server takes is live at once; a restart brings it back exactly when the
      configuration had room for it. */
  lemma AddPersistsIff(s: State, r: Request, willing: bool)
    requires InStep(s) && DiskCurrent(s) && ValidName(r.name) && CanCreate(s, DefOf(r), willing)
    ensures var t := Commit(s, DefOf(r), willing);
      r.name in t.server && Startup(t.disk, {}).Some?
      && (r.name in Startup(t.disk, {}).value.server <==> |s.nodes| < MAX_NODES)
  {
    if |s.nodes| < MAX_NODES {
      RecordedAddReturns(s, r, willing);
    } else {
      UnrecordedAddIsGone(s, r, willing);
    }
  }

  // ---------- a started server that is full ----------

  function FlatName(i: nat): (n: string)
    requires i < MAX_NODES
    ensures ValidName(n) && |n| == 2
  {
    ['a' + (i / 16) as char, 'a' + (i % 16) as char]
  }

  function Flat(i: nat, simulated: bool): NodeDef
    requires i < MAX_NODES
  {
    NodeDef(if simulated then VARIABLE else FOLDER, FlatName(i), "", "", Boolean, simulated, "")
  }

  /** 256 folders, or 256 simulated variables, under Objects. */
  function FlatNodes(simulated: bool): (nodes: seq<NodeDef>)
    ensures |nodes| == MAX_NODES && forall i :: 0 <= i < |nodes| ==> nodes[i] == Flat(i, simulated)
  {
    seq(MAX_NODES, i requires 0 <= i < MAX_NODES => Flat(i, simulated))
  }

  lemma FlatNamesDiffer(i: nat, j: nat)
    requires i < j < MAX_NODES
    ensures FlatName(i) != FlatName(j)
  {
    assert 16 * (i / 16) + i % 16 == i && 16 * (j / 16) + j % 16 == j;
    assert FlatName(i)[0] == 'a' + (i / 16) as char && FlatName(j)[0] == 'a' + (j / 16) as char;
    assert FlatName(i)[1] == 'a' + (i % 16) as char && FlatName(j)[1] == 'a' + (j % 16) as char;
  }

  lemma FlatIsProper(nodes: seq<NodeDef>, simulated: bool)
    requires nodes == FlatNodes(simulated)
    ensures Proper(nodes)
  {
    forall i, j | 0 <= i < j < |nodes| ensures nodes[i].browseName != nodes[j].browseName {
      FlatNamesDiffer(i, j);
    }
    forall d | d in nodes ensures d.browseName != "" && KnownKind(d) {
      var i :| 0 <= i < |nodes| && nodes[i] == d;
    }
  }

  function FullFile(uri: string, simulated: bool): File {
    Tree(ToJson(Config(uri, FlatNodes(simulated))))
  }

  lemma FlatReloads(uri: string, simulated: bool)
    requires |uri| < NAMESPACE_MAX
    ensures Load(FullFile(uri, simulated)) == Some(Config(uri, FlatNodes(simulated)))
  {
    LoadSavedIsIdentity(Config(uri, FlatNodes(simulated)));
  }

  lemma FlatNamesAreShort(nodes: seq<NodeDef>, simulated: bool, name: string)
    requires nodes == FlatNodes(simulated) && |name| != 2
    ensures name !in Names(nodes)
  {
    forall d | d in nodes ensures d.browseName != name {
      var i :| 0 <= i < |nodes| && nodes[i] == d;
    }
  }

  lemma FlatIsDeletable(s: State, i: nat, simulated: bool)
    requires s.nodes == FlatNodes(simulated) && i < MAX_NODES
    ensures DeleteStatus(s, s.nodes[i].browseName) == Good
  {
    assert s.nodes[i] in s.nodes;
    var k := Find(s.nodes, s.nodes[i].browseName);
    assert s.nodes[k] == Flat(k, simulated);
  }

  /** A file of 256 entries starts a server that is in step and full, with every node deletable. */
  lemma FullServerStarts(uri: string, simulated: bool)
    requires |uri| < NAMESPACE_MAX
    ensures Startup(FullFile(uri, simulated), {}).Some?
    ensures var s := Startup(FullFile(uri, simulated), {}).value;
      InStep(s) && DiskCurrent(s) && s.nodes == FlatNodes(simulated)
      && forall i :: 0 <= i < MAX_NODES ==> DeleteStatus(s, s.nodes[i].browseName) == Good
  {
    FlatReloads(uri, simulated);
    FlatIsProper(FlatNodes(simulated), simulated);
    StartupAgrees(FullFile(uri, simulated), {});
    StartedIsCurrent(FullFile(uri, simulated), {});
    var s := Startup(FullFile(uri, simulated), {}).value;
    forall i | 0 <= i < MAX_NODES ensures DeleteStatus(s, s.nodes[i].browseName) == Good {
      FlatIsDeletable(s, i, simulated);
    }
  }

  /** So a started server reaches a delete that removes a node with a child. */
  lemma FullServerHidesAChild(uri: string, child: string)
    requires |uri| < NAMESPACE_MAX && ValidName(child) && |child| != 2
    ensures Startup(FullFile(uri, false), {}).Some?
    ensures var w := World(Startup(FullFile(uri, false), {}).value, map[]);
      var t := Next(w, Add(FolderRequest(FlatName(0), child, ""), true)).s;
      child in t.server && DeleteStatus(t, FlatName(0)) == Good && !IsLeaf(t.server, FlatName(0))
  {
    FullServerStarts(uri, false);
    HidesBelow(Startup(FullFile(uri, false), {}).value, 0, child);
  }

  lemma HidesBelow(s: State, i: nat, child: string)
    requires InStep(s) && s.nodes == FlatNodes(false) && i < MAX_NODES && ValidName(child) && |child| != 2
    requires DeleteStatus(s, s.nodes[i].browseName) == Good
    ensures var t := Next(World(s, map[]), Add(FolderRequest(FlatName(i), child, ""), true)).s;
      child in t.server && DeleteStatus(t, FlatName(i)) == Good && !IsLeaf(t.server, FlatName(i))
  {
    FlatNamesAreShort(s.nodes, false, child);
    assert s.nodes[i].browseName == FlatName(i);
    FullCapacityHidesAChild(s, FlatName(i), child);
  }

  // ---------- a name configured twice ----------

  /** A delete of this name would go through. */
  predicate Deletable(nodes: seq<NodeDef>, name: string) {
    0 <= Find(nodes, name) && nodes[Find(nodes, name)].role != ROLE_SIMULATION && !HasChildren(nodes, name)
  }

  lemma StaysDeletable(nodes: seq<NodeDef>, later: seq<NodeDef>, name: string)
    requires Distinct(nodes) && Deletable(nodes, name) && name in Names(later)
    requires forall d :: d in later ==> d.parentName != name && (d.browseName == name ==> d in nodes)
    ensures Deletable(later, name)
  {
    var d := later[Find(later, name)];
    assert d in later;
    var i :| 0 <= i < |nodes| && nodes[i] == d;
    assert i == Find(nodes, name);
    assert forall k :: 0 <= k < |later| ==> later[k] in later;
  }

  lemma NoChildNames(nodes: seq<NodeDef>, name: string)
    requires !HasChildren(nodes, name)
    ensures forall d :: d in nodes ==> d.parentName != name
  {
    forall d | d in nodes ensures d.parentName != name {
      var i :| 0 <= i < |nodes| && nodes[i] == d;
    }
  }

  /** An add at full capacity: the node is live under its parent and in the map, not recorded. */
  lemma AddsHidden(s: State, x: string, h: string) returns (t: State)
    requires InStep(s) && |s.nodes| == MAX_NODES && Deletable(s.nodes, x) && |x| < NAME_MAX && ValidName(h)
      && h !in Names(s.nodes)
    ensures t == Commit(s, DefOf(FolderRequest(x, h, "")), true)
    ensures Held(t) && t.nodes == s.nodes && t.server == s.server[h := Named(x)] && 0 <= MapFind(t.slots, h)
  {
    var def := DefOf(FolderRequest(x, h, ""));
    t := Commit(s, def, true);
    InStepMeans(s);
    assert s.nodes[Find(s.nodes, x)] in s.nodes;
    ResolvesToTarget(s.slots, s.nodes, x);
    FreeSlot(s.slots, s.nodes);
    MapAddFinds(s.slots, h, Named(h), h);
    assert Held(s);
    CommitHolds(s, def, true);
  }

  /** A delete elsewhere makes room for one entry. */
  lemma MakesRoom(s: State, z: string, h: string) returns (t: State)
    requires Held(s) && |s.nodes| == MAX_NODES && Deletable(s.nodes, z) && 0 <= MapFind(s.slots, h) && h != z
    ensures t == Delete(s, z, {}) && Held(t) && |t.nodes| == MAX_NODES - 1
    ensures t.server == s.server - {z} && 0 <= MapFind(t.slots, h)
    ensures Names(t.nodes) == Names(s.nodes) - {z} && forall d :: d in t.nodes <==> d in s.nodes && d.browseName != z
  {
    t := Delete(s, z, {});
    DeleteHolds(s, t, z, {});
    DeletedFromServer(s, z, {});
    MapRemoveFinds(s.slots, z, h);
  }

  /** An add below the hidden node is recorded. */
  lemma AddsBelow(s: State, h: string, y: string) returns (t: State)
    requires Held(s) && |s.nodes| < MAX_NODES && 0 <= MapFind(s.slots, h) && h in s.server && ValidName(h)
      && ValidName(y) && y !in s.server
    ensures var def := DefOf(FolderRequest(h, y, ""));
      def.browseName == y && def.parentName == h && t == Commit(s, def, true) && Held(t)
      && t.nodes == s.nodes + [def] && t.server == s.server[y := Named(h)]
  {
    var def := DefOf(FolderRequest(h, y, ""));
    t := Commit(s, def, true);
    CommitHolds(s, def, true);
  }

  /** A run: an add of y is checked, h is added below x without being recorded, z makes room, and y
      is added below h. */
  function FirstFour(x: string, z: string, h: string, y: string): seq<Op> {
    [Begin(0, FolderRequest("", y, "")), Add(FolderRequest(x, h, ""), true), Remove(z, {}),
      Add(FolderRequest(h, y, ""), true)]
  }

  /** Then x is deleted with all that hangs below it, and the first add of y commits. */
  function TwiceRun(x: string, z: string, h: string, y: string): seq<Op> {
    FirstFour(x, z, h, y) + [Remove(x, {h, y})] + [Finish(0, true)]
  }

  lemma RunFour(w: World, a: Op, x: World, b: Op, y: World, c: Op, z: World, d: Op)
    requires x == Next(w, a) && y == Next(x, b) && z == Next(y, c)
    ensures RunOps(w, [a, b, c, d]) == Next(z, d)
  {
    assert [a, b, c, d] == [] + [a] + [b] + [c] + [d];
    RunSnoc(w, [], a);
    RunSnoc(w, [] + [a], b);
    RunSnoc(w, [] + [a] + [b], c);
    RunSnoc(w, [] + [a] + [b] + [c], d);
  }

  lemma Removes(s: State, pending: map<nat, Request>, name: string, gone: set<string>)
    ensures Next(World(s, pending), Remove(name, gone)) == World(Delete(s, name, gone), pending)
  {
  }

  lemma BeginsNew(w: World, name: string)
    requires ValidName(name) && name !in Names(w.s.nodes)
    ensures Next(w, Begin(0, FolderRequest("", name, ""))) == w.(pending := w.pending[0 := FolderRequest("", name, "")])
  {
  }

  lemma AddsNew(w: World, parent: string, name: string)
    requires ValidName(name) && name !in Names(w.s.nodes)
    ensures Next(w, Add(FolderRequest(parent, name, ""), true))
      == w.(s := Commit(w.s, DefOf(FolderRequest(parent, name, "")), true))
  {
  }

  /** y hangs below h and h below x, where x is deletable and y but not h is configured. */
  ghost predicate YBelowX(t: State, x: string, h: string, y: string) {
    Held(t) && |t.nodes| == MAX_NODES && Deletable(t.nodes, x) && y in Names(t.nodes) && y != x
    && h in t.server && y in t.server && t.server[h] == Named(x) && t.server[y] == Named(h)
  }

  /** Names of a full configuration for the run: two deletable nodes and two new names. */
  ghost predicate FitForRun(s: State, x: string, z: string, h: string, y: string) {
    InStep(s) && |s.nodes| == MAX_NODES && Deletable(s.nodes, x) && Deletable(s.nodes, z) && x != z && |x| < NAME_MAX
    && ValidName(h) && ValidName(y) && h != y && h !in Names(s.nodes) && y !in Names(s.nodes)
  }

  lemma TwoMoreEdits(nodes: seq<NodeDef>, u: State, x: string, z: string, h: string, y: string)
      returns (v: State, t: State)
    requires Held(u) && |nodes| == MAX_NODES && u.nodes == nodes && Deletable(nodes, x) && Deletable(nodes, z)
    requires x != z && ValidName(h) && ValidName(y) && h != y && x in Names(nodes) && h !in Names(nodes)
      && y !in Names(nodes)
    requires 0 <= MapFind(u.slots, h) && h in u.server && u.server[h] == Named(x) && y !in u.server && h != z
    ensures v == Delete(u, z, {}) && t == Commit(v, DefOf(FolderRequest(h, y, "")), true)
    ensures y !in Names(v.nodes) && YBelowX(t, x, h, y)
  {
    v := MakesRoom(u, z, h);
    t := AddsBelow(v, h, y);
    BelowIsDeletable(nodes, v.nodes, DefOf(FolderRequest(h, y, "")), x, z, h, y);
  }

  lemma InConfiguration(s: State, name: string)
    requires InStep(s)
    ensures name in Names(s.nodes) <==> name in s.server
    ensures Deletable(s.nodes, name) ==> name in Names(s.nodes)
  {
  }

  lemma FourEdits(s: State, x: string, z: string, h: string, y: string) returns (u: State, v: State, t: State)
    requires FitForRun(s, x, z, h, y)
    ensures u == Commit(s, DefOf(FolderRequest(x, h, "")), true) && v == Delete(u, z, {})
    ensures t == Commit(v, DefOf(FolderRequest(h, y, "")), true)
    ensures u.nodes == s.nodes && y !in Names(v.nodes) && YBelowX(t, x, h, y)
  {
    InConfiguration(s, x);
    InConfiguration(s, z);
    InConfiguration(s, y);
    u := AddsHidden(s, x, h);
    v, t := TwoMoreEdits(s.nodes, u, x, z, h, y);
  }

  lemma BelowIsDeletable(nodes: seq<NodeDef>, fewer: seq<NodeDef>, def: NodeDef,
                         x: string, z: string, h: string, y: string)
    requires Distinct(nodes) && Deletable(nodes, x) && x != z && h != x && y != x && def.browseName == y
      && def.parentName == h
    requires Names(fewer) == Names(nodes) - {z} && forall d :: d in fewer ==> d in nodes
    ensures Deletable(fewer + [def], x) && y in Names(fewer + [def])
  {
    NamesAppend(fewer, def);
    NoChildNames(nodes, x);
    assert x in Names(nodes);
    StaysDeletable(nodes, fewer + [def], x);
  }

  lemma FourStepsOf(s: State, u: State, v: State, t: State, x: string, z: string, h: string, y: string)
    requires ValidName(h) && ValidName(y) && h !in Names(s.nodes) && y !in Names(s.nodes) && y !in Names(v.nodes)
    requires u == Commit(s, DefOf(FolderRequest(x, h, "")), true) && v == Delete(u, z, {})
    requires t == Commit(v, DefOf(FolderRequest(h, y, "")), true)
    ensures RunOps(World(s, map[]), FirstFour(x, z, h, y)) == World(t, map[0 := FolderRequest("", y, "")])
  {
    var r := FolderRequest("", y, "");
    var w, pending := World(s, map[]), map[0 := r];
    var a, b := Begin(0, r), Add(FolderRequest(x, h, ""), true);
    var c, d := Remove(z, {}), Add(FolderRequest(h, y, ""), true);
    BeginsNew(w, y);
    assert Next(w, a) == World(s, pending);
    AddsNew(World(s, pending), x, h);
    Removes(u, pending, z, {});
    AddsNew(World(v, pending), h, y);
    RunFour(w, a, World(s, pending), b, World(u, pending), c, World(v, pending), d);
  }

  lemma FourSteps(s: State, x: string, z: string, h: string, y: string) returns (t: State)
    requires FitForRun(s, x, z, h, y)
    ensures RunOps(World(s, map[]), FirstFour(x, z, h, y)) == World(t, map[0 := FolderRequest("", y, "")])
    ensures YBelowX(t, x, h, y)
  {
    var u, v;
    u, v, t := FourEdits(s, x, z, h, y);
    FourStepsOf(s, u, v, t, x, z, h, y);
  }

  /** The delete of x takes h and y along, as its children; y stays configured. */
  lemma TakesYAlong(t: State, x: string, h: string, y: string)
    requires YBelowX(t, x, h, y)
    ensures MayTakeAlong(t.server, x, {h, y}) && DeleteStatus(t, x) == Good && !Spares(t, x, {h, y})
    ensures var u := Delete(t, x, {h, y}); |u.nodes| < MAX_NODES && y in Names(u.nodes) && y !in u.server
  {
    DeletedFromServer(t, x, {h, y});
    assert y in {h, y} * Names(t.nodes);
  }

  lemma LastTwoSteps(w: World, first: seq<Op>, t: State, r: Request, x: string, gone: set<string>)
    requires RunOps(w, first) == World(t, map[0 := r])
    ensures RunOps(w, first + [Remove(x, gone)] + [Finish(0, true)]).s == Commit(Delete(t, x, gone), DefOf(r), true)
  {
    RunSnoc(w, first, Remove(x, gone));
    RunSnoc(w, first + [Remove(x, gone)], Finish(0, true));
  }

  /** Uniqueness needs the condition on deletes: from any full configuration with two deletable
      nodes, two interleaved adders and a deleter configure a name twice. */
  lemma NameComesTwice(s: State, x: string, z: string, h: string, y: string)
    requires FitForRun(s, x, z, h, y)
    ensures MayTakeAlong(RunOps(World(s, map[]), FirstFour(x, z, h, y)).s.server, x, {h, y})
    ensures !Distinct(RunOps(World(s, map[]), TwiceRun(x, z, h, y)).s.nodes)
  {
    var t := FourSteps(s, x, z, h, y);
    TakesYAlong(t, x, h, y);
    LostNameComesTwice(Delete(t, x, {h, y}), DefOf(FolderRequest("", y, "")));
    LastTwoSteps(World(s, map[]), FirstFour(x, z, h, y), t, FolderRequest("", y, ""), x, {h, y});
  }

  lemma FlatIsFirst(nodes: seq<NodeDef>, i: nat)
    requires nodes == FlatNodes(false) && i < MAX_NODES
    ensures Deletable(nodes, FlatName(i))
  {
    assert nodes[i] in nodes;
    var k := Find(nodes, FlatName(i));
    assert nodes[k] == Flat(k, false);
  }

  lemma FullServerFits(s: State, i: nat, j: nat, h: string, y: string)
    requires InStep(s) && s.nodes == FlatNodes(false) && i < j < MAX_NODES
    requires ValidName(h) && ValidName(y) && h != y && |h| != 2 && |y| != 2
    ensures FitForRun(s, FlatName(i), FlatName(j), h, y)
  {
    FlatNamesAreShort(s.nodes, false, h);
    FlatNamesAreShort(s.nodes, false, y);
    FlatNamesDiffer(i, j);
    FlatIsFirst(s.nodes, i);
    FlatIsFirst(s.nodes, j);
  }

  /** A started server has such a run. */
  lemma FullServerNamesTwice(uri: string, i: nat, j: nat, h: string, y: string)
    requires |uri| < NAMESPACE_MAX && i < j < MAX_NODES
    requires ValidName(h) && ValidName(y) && h != y && |h| != 2 && |y| != 2
    ensures Startup(FullFile(uri, false), {}).Some?
    ensures var w := World(Startup(FullFile(uri, false), {}).value, map[]);
      !Distinct(RunOps(w, TwiceRun(FlatName(i), FlatName(j), h, y)).s.nodes)
  {
    FullServerStarts(uri, false);
    FullServerFits(Startup(FullFile(uri, false), {}).value, i, j, h, y);
    NameComesTwice(Startup(FullFile(uri, false), {}).value, FlatName(i), FlatName(j), h, y);
  }
}

/** Edits apply at once and persist: what a restart from the saved file rebuilds, and when that
    is the tree and the sensors that were live before. */
module Restart {
  import opened Wrappers
  import opened ServerConfig
  import opened NodeTree
  import opened Simulation
  import opened AddressSpace
  import opened EditRuns
  import opened Agreement
  import opened Interleavings

  // ---------- building ----------

  /** Each created node sits where the whole configuration says it should. */
  ghost predicate PlacedBy(server: map<string, NodeId>, made: seq<NodeDef>, names: set<string>) {
    forall d :: d in made ==> d.browseName in server && server[d.browseName] == Target(names, d.parentName)
  }

  ghost predicate ParentsComeFirst(defs: seq<NodeDef>, names: set<string>) {
    forall i :: 0 <= i < |defs| && defs[i].parentName in names ==> defs[i].parentName in Names(defs[..i])
  }

  lemma BlankAgrees(cfg: Config, disk: File)
    ensures Agrees(Blank(cfg, disk), [])
  {
    var slots := Blank(cfg, disk).slots;
    AllFree(slots);
    forall n ensures MapFind(slots, n) < 0 { MapFindIff(slots, n); }
  }

  lemma {:induction false} AllFree(slots: seq<Slot>)
    requires forall i :: 0 <= i < |slots| ==> slots[i].Free?
    ensures UsedCount(slots) == 0
  {
    if slots != [] {
      AllFree(slots[1..]);
    }
  }

  lemma ProperInit(defs: seq<NodeDef>)
    requires defs != [] && Proper(defs)
    ensures Proper(defs[..|defs| - 1]) && defs == defs[..|defs| - 1] + [defs[|defs| - 1]]
    ensures defs[|defs| - 1].browseName !in Names(defs[..|defs| - 1]) + {""} && KnownKind(defs[|defs| - 1])
    ensures Names(defs) == Names(defs[..|defs| - 1]) + {defs[|defs| - 1].browseName}
  {
    LastIsNew(defs);
    assert defs[|defs| - 1] in defs && defs[|defs| - 1].browseName in Names(defs);
  }

  lemma BuildLast(s: State, defs: seq<NodeDef>, unwilling: set<string>)
    requires defs != [] && KnownKind(defs[|defs| - 1])
    ensures var b, last := BuildAll(s, defs[..|defs| - 1], unwilling), defs[|defs| - 1];
      BuildAll(s, defs, unwilling)
        == if b.Some? && CanCreate(b.value, last, last.browseName !in unwilling)
             then Some(With(b.value, last)) else None
  {
  }

  lemma BuiltNext(s: State, r: Option<State>, init: seq<NodeDef>, last: NodeDef, willing: bool)
    requires Agrees(s, init) && |init| < MAX_NODES && last.browseName !in Names(init) + {""} && KnownKind(last)
    requires r == if CanCreate(s, last, willing) then Some(With(s, last)) else None
    ensures willing ==> r.Some?
    ensures r.Some? ==>
      Agrees(r.value, init + [last]) && r.value.nodes == s.nodes && r.value.uri == s.uri && r.value.disk == s.disk
  {
    CreateNext(s, init, last, willing);
  }

  /** A build that goes through leaves everything in agreement with what it was given. */
  lemma {:induction false} BuildAgrees(cfg: Config, disk: File, defs: seq<NodeDef>, unwilling: set<string>)
    requires Proper(defs) && |defs| <= MAX_NODES
    ensures unwilling !! Names(defs) ==> BuildAll(Blank(cfg, disk), defs, unwilling).Some?
    ensures var r := BuildAll(Blank(cfg, disk), defs, unwilling);
      r.Some? ==>
        Agrees(r.value, defs) && r.value.nodes == cfg.nodes && r.value.uri == cfg.namespaceUri && r.value.disk == disk
  {
    var s := Blank(cfg, disk);
    if defs == [] {
      BlankAgrees(cfg, disk);
    } else {
      var init, last := defs[..|defs| - 1], defs[|defs| - 1];
      ProperInit(defs);
      BuildAgrees(cfg, disk, init, unwilling);
      BuildLast(s, defs, unwilling);
      var b := BuildAll(s, init, unwilling);
      if b.Some? {
        BuiltNext(b.value, BuildAll(s, defs, unwilling), init, last, last.browseName !in unwilling);
      }
    }
  }

  /** One more entry: the server takes it if it is willing, and everything stays in agreement. */
  lemma CreateNext(s: State, init: seq<NodeDef>, last: NodeDef, willing: bool)
    requires Agrees(s, init) && |init| < MAX_NODES && last.browseName !in Names(init) + {""} && KnownKind(last)
    ensures willing ==> CanCreate(s, last, willing)
    ensures CanCreate(s, last, willing) ==> Agrees(With(s, last), init + [last])
  {
    ResolvesToTarget(s.slots, init, last.parentName);
    if CanCreate(s, last, willing) {
      WithAgrees(s, init, last, willing);
    }
  }

  /** Each node sits under its parent if that comes earlier in the list, else under Objects. */
  ghost predicate PlacedInOrder(server: map<string, NodeId>, defs: seq<NodeDef>) {
    forall i :: 0 <= i < |defs| ==>
      defs[i].browseName in server && server[defs[i].browseName] == Target(Names(defs[..i]), defs[i].parentName)
  }

  lemma PlaceNext(server: map<string, NodeId>, init: seq<NodeDef>, last: NodeDef)
    requires server.Keys == Names(init) && PlacedInOrder(server, init) && last.browseName !in Names(init)
    ensures PlacedInOrder(server[last.browseName := Target(Names(init), last.parentName)], init + [last])
  {
    var defs, t := init + [last], server[last.browseName := Target(Names(init), last.parentName)];
    forall i | 0 <= i < |defs|
      ensures defs[i].browseName in t && t[defs[i].browseName] == Target(Names(defs[..i]), defs[i].parentName)
    {
      if i < |init| {
        assert defs[i] == init[i] && defs[..i] == init[..i] && init[i].browseName in server;
      } else {
        assert defs[..i] == init;
      }
    }
  }

  /** A build places every node under its parent exactly if that was created before. */
  lemma {:induction false} BuildPlacesInOrder(cfg: Config, disk: File, defs: seq<NodeDef>, unwilling: set<string>)
    requires Proper(defs) && |defs| <= MAX_NODES && BuildAll(Blank(cfg, disk), defs, unwilling).Some?
    ensures PlacedInOrder(BuildAll(Blank(cfg, disk), defs, unwilling).value.server, defs)
  {
    if defs != [] {
      var init, last := defs[..|defs| - 1], defs[|defs| - 1];
      ProperInit(defs);
      BuildPlacesInOrder(cfg, disk, init, unwilling);
      BuildAgrees(cfg, disk, init, unwilling);
      var before := BuildAll(Blank(cfg, disk), init, unwilling).value;
      ResolvesToTarget(before.slots, init, last.parentName);
      PlaceNext(before.server, init, last);
    }
  }

  lemma NamesBefore(defs: seq<NodeDef>, i: nat)
    requires i <= |defs|
    ensures Names(defs[..i]) <= Names(defs)
  {
    assert forall d :: d in defs[..i] ==> d in defs;
  }

  /** What is placed in order is where the configuration says exactly when parents come first. */
  lemma InOrderIff(server: map<string, NodeId>, defs: seq<NodeDef>, names: set<string>)
    requires PlacedInOrder(server, defs) && Names(defs) <= names
    ensures PlacedBy(server, defs, names) <==> ParentsComeFirst(defs, names)
  {
    forall i | 0 <= i < |defs|
      ensures Target(Names(defs[..i]), defs[i].parentName) == Target(names, defs[i].parentName)
         <==> (defs[i].parentName in names ==> defs[i].parentName in Names(defs[..i]))
      ensures defs[i] in defs
    {
      NamesBefore(defs, i);
    }
    if ParentsComeFirst(defs, names) {
      forall d | d in defs ensures d.browseName in server && server[d.browseName] == Target(names, d.parentName) {
        var i :| 0 <= i < |defs| && defs[i] == d;
      }
    }
  }

  /** A build puts every node where the names say exactly when parents come before children. */
  lemma BuildPlaces(cfg: Config, disk: File, defs: seq<NodeDef>, unwilling: set<string>, names: set<string>)
    requires Proper(defs) && |defs| <= MAX_NODES && Names(defs) <= names
    requires BuildAll(Blank(cfg, disk), defs, unwilling).Some?
    ensures PlacedBy(BuildAll(Blank(cfg, disk), defs, unwilling).value.server, defs, names)
      <==> ParentsComeFirst(defs, names)
  {
    BuildPlacesInOrder(cfg, disk, defs, unwilling);
    InOrderIff(BuildAll(Blank(cfg, disk), defs, unwilling).value.server, defs, names);
  }

  // ---------- starting up ----------

  lemma PermutedAgrees(s: State, a: seq<NodeDef>, b: seq<NodeDef>)
    requires Agrees(s, a) && multiset(a) == multiset(b) && Distinct(b)
    ensures Agrees(s, b)
  {
    SameElements(a, b);
    assert |a| == |multiset(a)| == |multiset(b)| == |b|;
  }

  lemma SameElements(a: seq<NodeDef>, b: seq<NodeDef>)
    requires multiset(a) == multiset(b)
    ensures forall d :: d in a <==> d in b
    ensures Names(a) == Names(b) && SimulatedNames(a) == SimulatedNames(b)
  {
    assert forall d :: d in a <==> d in multiset(a);
    assert forall d :: d in b <==> d in multiset(b);
  }

  lemma SortedIsProper(nodes: seq<NodeDef>)
    requires Proper(nodes)
    ensures Proper(SortByDepth(nodes)) && |SortByDepth(nodes)| == |nodes|
    ensures Shallow(nodes) ==> ParentsComeFirst(SortByDepth(nodes), Names(nodes))
  {
    var s := SortByDepth(nodes);
    SortIsSorted(nodes);
    SameElements(s, nodes);
    if Shallow(nodes) {
      forall i | 0 <= i < |s| && s[i].parentName in Names(nodes) ensures s[i].parentName in Names(s[..i]) {
        ParentsFirst(nodes, s, i);
      }
    }
  }

  lemma StartupInStep(file: File, unwilling: set<string>, cfg: Config, disk: File)
    requires Load(file) == Some(cfg) && Proper(cfg.nodes)
    requires disk == if file.Absent? then Tree(ToJson(Defaults())) else file
    ensures unwilling == {} ==> Startup(file, unwilling).Some?
    ensures Startup(file, unwilling).Some? ==>
      var s := Startup(file, unwilling).value;
      InStep(s) && s.nodes == cfg.nodes && s.uri == cfg.namespaceUri && s.disk == disk
  {
    var sorted := SortByDepth(cfg.nodes);
    LoadedFits(file);
    SortedIsProper(cfg.nodes);
    BuildAgrees(cfg, disk, sorted, unwilling);
    if Startup(file, unwilling).Some? {
      SortIsSorted(cfg.nodes);
      PermutedAgrees(Startup(file, unwilling).value, sorted, cfg.nodes);
    }
  }

  /** A server that has started is in step with the configuration it loaded, for any file, and
      has placed its nodes in the order of the sort. */
  lemma StartupAgrees(file: File, unwilling: set<string>)
    requires Load(file).Some? && Proper(Load(file).value.nodes)
    ensures unwilling == {} ==> Startup(file, unwilling).Some?
    ensures Startup(file, unwilling).Some? ==>
      var s := Startup(file, unwilling).value;
      InStep(s) && s.nodes == Load(file).value.nodes && s.uri == Load(file).value.namespaceUri
      && PlacedInOrder(s.server, SortByDepth(s.nodes))
      && s.disk == if file.Absent? then Tree(ToJson(Defaults())) else file
  {
    var cfg := Load(file).value;
    var disk := if file.Absent? then Tree(ToJson(Defaults())) else file;
    StartupInStep(file, unwilling, cfg, disk);
    LoadedFits(file);
    SortedIsProper(cfg.nodes);
    if Startup(file, unwilling).Some? {
      BuildPlacesInOrder(cfg, disk, SortByDepth(cfg.nodes), unwilling);
    }
  }

  /** Every node of the live tree is where the configuration says. */
  ghost predicate Faithful(s: State) {
    PlacedBy(s.server, s.nodes, Names(s.nodes))
  }

  /** The sort puts every parent that exists before its children. */
  ghost predicate SortsParentsFirst(nodes: seq<NodeDef>) {
    ParentsComeFirst(SortByDepth(nodes), Names(nodes))
  }

  /** A tree placed in the order of the sort is faithful exactly when the sort puts parents first,
      and that is so when no chain is deeper than 32. */
  lemma PlacedFaithfullyIff(s: State)
    requires Proper(s.nodes) && PlacedInOrder(s.server, SortByDepth(s.nodes))
    ensures Faithful(s) <==> SortsParentsFirst(s.nodes)
    ensures Shallow(s.nodes) ==> SortsParentsFirst(s.nodes)
  {
    SortedIsProper(s.nodes);
    SortIsSorted(s.nodes);
    SameElements(SortByDepth(s.nodes), s.nodes);
    InOrderIff(s.server, SortByDepth(s.nodes), Names(s.nodes));
  }

  // ---------- the file follows the edits ----------

  ghost predicate SameShape(a: seq<NodeDef>, b: seq<NodeDef>) {
    |a| == |b| && forall i :: 0 <= i < |a| ==> Stored(a[i]) == Stored(b[i])
  }

  /** Loading the file gives the live configuration, up to the data types of folders; an empty
      configuration is loaded as the defaults. */
  ghost predicate DiskCurrent(s: State) {
    FitsAll(Config(s.uri, s.nodes)) && Load(s.disk).Some?
    && if s.nodes == [] then Load(s.disk).value == Defaults()
       else Load(s.disk).value.namespaceUri == s.uri && SameShape(Load(s.disk).value.nodes, s.nodes)
  }

  lemma SavedIsCurrent(s: State)
    requires FitsAll(Config(s.uri, s.nodes)) && s.disk == Tree(ToJson(Config(s.uri, s.nodes)))
    ensures DiskCurrent(s)
  {
    LoadSaved(Config(s.uri, s.nodes));
  }

  lemma DefaultsReload()
    ensures FitsAll(Defaults()) && Load(Tree(ToJson(Defaults()))) == Some(Defaults())
  {
    LoadSavedIsIdentity(Defaults());
  }

  lemma StartedIsCurrent(file: File, unwilling: set<string>)
    requires Load(file).Some? && Proper(Load(file).value.nodes) && Startup(file, unwilling).Some?
    ensures DiskCurrent(Startup(file, unwilling).value)
  {
    StartupAgrees(file, unwilling);
    LoadedFits(file);
    if file.Absent? {
      DefaultsReload();
    }
  }

  lemma CommitIsCurrent(s: State, r: Request, willing: bool)
    requires DiskCurrent(s)
    ensures DiskCurrent(Commit(s, DefOf(r), willing))
  {
    if CanCreate(s, DefOf(r), willing) && |s.nodes| < MAX_NODES {
      SavedIsCurrent(Commit(s, DefOf(r), willing));
    }
  }

  lemma DropFits(uri: string, nodes: seq<NodeDef>, i: nat)
    requires FitsAll(Config(uri, nodes)) && i < |nodes|
    ensures FitsAll(Config(uri, Drop(nodes, i)))
  {
    forall k | 0 <= k < |nodes| - 1 ensures Fits(Drop(nodes, i)[k]) {
      assert Drop(nodes, i)[k] == nodes[if k < i then k else k + 1];
    }
  }

  lemma DeleteIsCurrent(s: State, name: string, gone: set<string>)
    requires DiskCurrent(s)
    ensures DiskCurrent(Delete(s, name, gone))
  {
    if DeleteStatus(s, name) == Good {
      DropFits(s.uri, s.nodes, Find(s.nodes, name));
      SavedIsCurrent(Without(s, name, gone));
    }
  }

  /** After every operation the file is current. */
  lemma NextIsCurrent(w: World, op: Op)
    requires DiskCurrent(w.s)
    ensures DiskCurrent(Next(w, op).s)
  {
    match op
    case Add(r, willing) => CommitIsCurrent(w.s, r, willing);
    case Finish(c, willing) => if c in w.pending { CommitIsCurrent(w.s, w.pending[c], willing); }
    case Remove(name, gone) => DeleteIsCurrent(w.s, name, gone);
    case SetNamespace(uri) => SavedIsCurrent(Next(w, op).s);
    case _ =>
  }

  // ---------- restarting ----------

  lemma ShapeAt(a: seq<NodeDef>, b: seq<NodeDef>, i: nat)
    requires SameShape(a, b) && i < |a|
    ensures a[i].browseName == b[i].browseName && a[i].parentName == b[i].parentName && a[i].kind == b[i].kind
    ensures IsSimulated(a[i]) == IsSimulated(b[i])
  {
    assert Stored(a[i]) == Stored(b[i]);
  }

  lemma {:induction false} ShapeFinds(a: seq<NodeDef>, b: seq<NodeDef>, name: string)
    requires SameShape(a, b)
    ensures Find(a, name) == Find(b, name)
  {
    if a != [] {
      ShapeAt(a, b, 0);
      ShapeFinds(a[1..], b[1..], name);
    }
  }

  lemma ShapeStep(a: seq<NodeDef>, b: seq<NodeDef>, parent: string)
    requires SameShape(a, b)
    ensures Find(a, parent) == Find(b, parent)
    ensures 0 <= Find(a, parent) ==> a[Find(a, parent)].parentName == b[Find(a, parent)].parentName
  {
    ShapeFinds(a, b, parent);
    if 0 <= Find(a, parent) {
      ShapeAt(a, b, Find(a, parent));
    }
  }

  lemma {:induction false} ShapeClimbs(a: seq<NodeDef>, b: seq<NodeDef>, parent: string, fuel: nat)
    requires SameShape(a, b)
    ensures Climb(a, parent, fuel) == Climb(b, parent, fuel)
    decreases fuel
  {
    ShapeStep(a, b, parent);
    if fuel == 0 || parent == "" || Find(a, parent) < 0 {
    } else {
      var i, above := Find(a, parent), a[Find(a, parent)].parentName;
      ShapeClimbs(a, b, above, fuel - 1);
      ClimbOne(a, parent, i, above, fuel);
      ClimbOne(b, parent, i, above, fuel);
    }
  }

  lemma SameShapeSame(a: seq<NodeDef>, b: seq<NodeDef>)
    requires SameShape(a, b)
    ensures Names(a) == Names(b) && SimulatedNames(a) == SimulatedNames(b)
    ensures Proper(b) ==> Proper(a)
    ensures Shallow(b) ==> Shallow(a)
  {
    forall i | 0 <= i < |a|
      ensures a[i].browseName == b[i].browseName && a[i].parentName == b[i].parentName && a[i].kind == b[i].kind
      ensures IsSimulated(a[i]) == IsSimulated(b[i]) && a[i] in a && b[i] in b
    {
      ShapeAt(a, b, i);
    }
    assert Names(a) == Names(b);
    assert SimulatedNames(a) == SimulatedNames(b);
    if Shallow(b) {
      forall d | d in a ensures Climb(a, d.parentName, DEPTH_CAP + 1) <= DEPTH_CAP {
        var i :| 0 <= i < |a| && a[i] == d;
        ShapeClimbs(a, b, d.parentName, DEPTH_CAP + 1);
        assert b[i] in b;
      }
    }
  }

  lemma DefaultsAreProper()
    ensures Proper(Defaults().nodes)
  {
    var nodes := Defaults().nodes;
    assert |nodes[0].browseName| == 7 && |nodes[5].browseName| == 20 && |nodes[6].browseName| == 17;
    assert nodes[0].browseName[6] == 's';
    assert nodes[1].browseName[6] == '1' && nodes[2].browseName[6] == '2' && nodes[3].browseName[6] == '3'
      && nodes[4].browseName[6] == '4';
  }

  /** The loaded entries, in the order in which a restart creates them. */
  function Creation(file: File): seq<NodeDef>
    requires Load(file).Some?
  {
    SortByDepth(Load(file).value.nodes)
  }

  lemma RestartGoesThrough(s: State)
    requires DiskCurrent(s) && Proper(s.nodes)
    ensures Proper(Load(s.disk).value.nodes) && Startup(s.disk, {}).Some?
    ensures var r := Startup(s.disk, {}).value;
      InStep(r) && DiskCurrent(r) && r.nodes == Load(s.disk).value.nodes
      && r.server.Keys == Names(Creation(s.disk)) && PlacedInOrder(r.server, Creation(s.disk))
  {
    var nodes := Load(s.disk).value.nodes;
    if s.nodes == [] {
      DefaultsAreProper();
    } else {
      SameShapeSame(nodes, s.nodes);
    }
    StartupAgrees(s.disk, {});
    StartedIsCurrent(s.disk, {});
    SortIsSorted(nodes);
    SameElements(SortByDepth(nodes), nodes);
  }

  lemma PlacedInOrderOnce(t: map<string, NodeId>, u: map<string, NodeId>, defs: seq<NodeDef>)
    requires t.Keys == u.Keys == Names(defs) && PlacedInOrder(t, defs) && PlacedInOrder(u, defs)
    ensures t == u
  {
    forall n | n in t ensures t[n] == u[n] {
      var d :| d in defs && d.browseName == n;
      var i :| 0 <= i < |defs| && defs[i] == d;
    }
  }

  /** A restart rebuilds the live tree exactly when the live tree has the nodes of the file, each
      under its parent if the sort creates that first and under Objects otherwise.  This is so
      for chains of any depth, cycles, empty and full configurations. */
  lemma RestartRebuildsIff(s: State)
    requires DiskCurrent(s) && Proper(s.nodes)
    ensures Startup(s.disk, {}).Some?
    ensures Startup(s.disk, {}).value.server == s.server
       <==> s.server.Keys == Names(Creation(s.disk)) && PlacedInOrder(s.server, Creation(s.disk))
  {
    RestartGoesThrough(s);
    if s.server.Keys == Names(Creation(s.disk)) && PlacedInOrder(s.server, Creation(s.disk)) {
      PlacedInOrderOnce(s.server, Startup(s.disk, {}).value.server, Creation(s.disk));
    }
  }

  lemma SomethingIsCreated(s: State)
    requires InStep(s) && DiskCurrent(s) && PlacedInOrder(s.server, Creation(s.disk))
    ensures s.nodes != [] && s.server.Keys == Names(Creation(s.disk))
  {
    var nodes := Load(s.disk).value.nodes;
    LoadedFits(s.disk);
    SortIsSorted(nodes);
    SameElements(SortByDepth(nodes), nodes);
    assert nodes[0] in SortByDepth(nodes);
    var i :| 0 <= i < |SortByDepth(nodes)| && SortByDepth(nodes)[i] == nodes[0];
    assert nodes[0].browseName in Names(s.nodes);
    SameShapeSame(nodes, s.nodes);
  }

  /** Below capacity only the places matter: the restart rebuilds the live tree exactly when each
      node sits under its parent if the sort creates that first, and under Objects otherwise. */
  lemma LiveTreeReturnsIff(s: State)
    requires InStep(s) && DiskCurrent(s)
    ensures Startup(s.disk, {}).Some?
    ensures Startup(s.disk, {}).value.server == s.server <==> PlacedInOrder(s.server, Creation(s.disk))
  {
    RestartRebuildsIff(s);
    if PlacedInOrder(s.server, Creation(s.disk)) {
      SomethingIsCreated(s);
    }
  }

  /** Of two trees of one shape, where one is faithful the other is the same tree exactly when it
      is faithful too. */
  lemma FaithfulTrees(s: State, r: State)
    requires s.server.Keys == r.server.Keys == Names(s.nodes) == Names(r.nodes) && SameShape(r.nodes, s.nodes)
    ensures Faithful(r) ==> (r.server == s.server <==> Faithful(s))
  {
    if Faithful(r) {
      SameTree(s.server, s.nodes, r.server, r.nodes);
    }
  }

  lemma SameShapeBack(a: seq<NodeDef>, b: seq<NodeDef>)
    requires SameShape(a, b)
    ensures SameShape(b, a)
  {
  }

  lemma RestartKeepsNodes(s: State)
    requires InStep(s) && DiskCurrent(s) && s.nodes != []
    ensures Startup(s.disk, {}).Some?
    ensures var r := Startup(s.disk, {}).value;
      InStep(r) && DiskCurrent(r) && r.uri == s.uri && SameShape(r.nodes, s.nodes)
      && SensorNames(r.sim.sensors) == SensorNames(s.sim.sensors) && r.server.Keys == s.server.Keys
      && PlacedInOrder(r.server, SortByDepth(r.nodes))
  {
    SameShapeSame(Load(s.disk).value.nodes, s.nodes);
    StartupAgrees(s.disk, {});
    StartedIsCurrent(s.disk, {});
  }

  /** A restart of a configuration with nodes keeps nodes and simulated sensors.  It puts every
      node where the configuration says exactly when the sort puts parents first; in that case
      it rebuilds the live tree exactly when the live tree was faithful. */
  lemma RestartRebuilds(s: State)
    requires InStep(s) && DiskCurrent(s) && s.nodes != []
    ensures Startup(s.disk, {}).Some?
    ensures var r := Startup(s.disk, {}).value;
      InStep(r) && DiskCurrent(r) && r.uri == s.uri && SameShape(r.nodes, s.nodes)
      && SensorNames(r.sim.sensors) == SensorNames(s.sim.sensors) && r.server.Keys == s.server.Keys
      && (Faithful(r) <==> SortsParentsFirst(r.nodes))
      && (Shallow(s.nodes) ==> SortsParentsFirst(r.nodes))
      && (SortsParentsFirst(r.nodes) ==> (r.server == s.server <==> Faithful(s)))
      && (Faithful(s) ==> (r.server == s.server <==> SortsParentsFirst(r.nodes)))
  {
    RestartKeepsNodes(s);
    var r := Startup(s.disk, {}).value;
    SameShapeSame(r.nodes, s.nodes);
    PlacedFaithfullyIff(r);
    SameShapeBack(r.nodes, s.nodes);
    FaithfulTrees(s, r);
    FaithfulTrees(r, s);
  }

  lemma ShapeMate(a: seq<NodeDef>, b: seq<NodeDef>, d: NodeDef) returns (e: NodeDef)
    requires SameShape(a, b) && d in a
    ensures e in b && e.browseName == d.browseName && e.parentName == d.parentName
  {
    var i :| 0 <= i < |a| && a[i] == d;
    ShapeAt(a, b, i);
    e := b[i];
  }

  lemma PlacedSameShape(server: map<string, NodeId>, a: seq<NodeDef>, b: seq<NodeDef>, names: set<string>)
    requires SameShape(a, b) && PlacedBy(server, a, names)
    ensures PlacedBy(server, b, names)
  {
    assert SameShape(b, a);
    forall d | d in b ensures d.browseName in server && server[d.browseName] == Target(names, d.parentName) {
      var e := ShapeMate(b, a, d);
    }
  }

  lemma PlacedOnce(t: map<string, NodeId>, u: map<string, NodeId>, nodes: seq<NodeDef>, names: set<string>)
    requires t.Keys == u.Keys == Names(nodes) && PlacedBy(t, nodes, names) && PlacedBy(u, nodes, names)
    ensures t == u
  {
    forall n | n in t ensures t[n] == u[n] {
      var d :| d in nodes && d.browseName == n;
    }
  }

  lemma SameTree(live: map<string, NodeId>, nodes: seq<NodeDef>, rebuilt: map<string, NodeId>, reread: seq<NodeDef>)
    requires live.Keys == rebuilt.Keys == Names(nodes)
    requires SameShape(reread, nodes) && PlacedBy(rebuilt, reread, Names(nodes))
    ensures rebuilt == live <==> PlacedBy(live, nodes, Names(nodes))
  {
    PlacedSameShape(rebuilt, reread, nodes, Names(nodes));
    if PlacedBy(live, nodes, Names(nodes)) {
      PlacedOnce(live, rebuilt, nodes, Names(nodes));
    }
  }

  // ---------- which edits keep the tree faithful ----------

  /** No entry, the new one included, already names the new node as its parent. */
  ghost predicate Unclaimed(nodes: seq<NodeDef>, def: NodeDef) {
    !HasChildren(nodes + [def], def.browseName)
  }

  lemma UnclaimedMeans(nodes: seq<NodeDef>, def: NodeDef)
    ensures Unclaimed(nodes, def)
      <==> def.parentName != def.browseName && forall d :: d in nodes ==> d.parentName != def.browseName
  {
    var all := nodes + [def];
    assert all[|nodes|] == def;
    assert forall i :: 0 <= i < |nodes| ==> all[i] == nodes[i];
    if d :| d in nodes && d.parentName == def.browseName {
      var i :| 0 <= i < |nodes| && nodes[i] == d;
      assert all[i].parentName == def.browseName;
    }
  }

  lemma AppendPlacedIff(server: map<string, NodeId>, nodes: seq<NodeDef>, def: NodeDef)
    requires server.Keys == Names(nodes) && PlacedBy(server, nodes, Names(nodes)) && def.browseName !in Names(nodes)
    ensures PlacedBy(server[def.browseName := Target(Names(nodes), def.parentName)], nodes + [def],
      Names(nodes + [def]))
       <==> Unclaimed(nodes, def)
  {
    var t := server[def.browseName := Target(Names(nodes), def.parentName)];
    NamesAppend(nodes, def);
    UnclaimedMeans(nodes, def);
    assert forall d :: d in nodes ==> d.browseName in Names(nodes);
    assert def in nodes + [def];
    forall d | d in nodes ensures d in nodes + [def] && t[d.browseName] == Target(Names(nodes), d.parentName) {
    }
  }

  /** An add keeps the tree faithful exactly when no entry already claims the new name. */
  lemma CommitFaithfulIff(s: State, def: NodeDef, willing: bool)
    requires InStep(s) && Faithful(s) && |s.nodes| < MAX_NODES && def.browseName != "" && CanCreate(s, def, willing)
    ensures Faithful(Commit(s, def, willing)) <==> Unclaimed(s.nodes, def)
  {
    ResolvesToTarget(s.slots, s.nodes, def.parentName);
    AppendPlacedIff(s.server, s.nodes, def);
  }

  lemma DropStaysPlaced(server: map<string, NodeId>, nodes: seq<NodeDef>, i: nat)
    requires Distinct(nodes) && i < |nodes| && PlacedBy(server, nodes, Names(nodes))
      && !HasChildren(nodes, nodes[i].browseName)
    ensures PlacedBy(server - {nodes[i].browseName}, Drop(nodes, i), Names(Drop(nodes, i)))
  {
    NamesDrop(nodes, i);
    forall d | d in Drop(nodes, i) ensures d in nodes && d.parentName != nodes[i].browseName {
      var k :| 0 <= k < |nodes| && nodes[k] == d;
      assert nodes[k].parentName != nodes[i].browseName;
    }
  }

  lemma DeleteFaithful(s: State, name: string, gone: set<string>)
    requires InStep(s) && Faithful(s) && MayTakeAlong(s.server, name, gone)
    ensures Faithful(Delete(s, name, gone))
  {
    if DeleteStatus(s, name) == Good {
      DeleteAgrees(s, name, gone);
      DropStaysPlaced(s.server, s.nodes, Find(s.nodes, name));
    }
  }

  /** The request an operation commits, if it commits one. */
  function Committed(w: World, op: Op): Option<Request> {
    if op.Add? && Precheck(w.s.nodes, op.request) == Good then Some(op.request)
    else if op.Finish? && op.caller in w.pending then Some(w.pending[op.caller])
    else None
  }

  ghost predicate KeepsClaims(w: World, op: Op) {
    Committed(w, op).Some? ==> Unclaimed(w.s.nodes, DefOf(Committed(w, op).value))
  }

  ghost predicate RunKeepsClaims(w: World, ops: seq<Op>) {
    ops == [] || (RunKeepsClaims(w, ops[..|ops| - 1]) && KeepsClaims(RunOps(w, ops[..|ops| - 1]), ops[|ops| - 1]))
  }

  lemma CommitFaithful(s: State, r: Request, willing: bool)
    requires InStep(s) && Faithful(s) && |s.nodes| < MAX_NODES && ValidName(r.name) && Unclaimed(s.nodes, DefOf(r))
    ensures Faithful(Commit(s, DefOf(r), willing))
  {
    if CanCreate(s, DefOf(r), willing) {
      CommitFaithfulIff(s, DefOf(r), willing);
    }
  }

  lemma NextFaithful(w: World, op: Op)
    requires InStep(w.s) && Faithful(w.s) && PendingChecked(w) && BelowCapacity(w, op) && KeepsClaims(w, op)
    ensures Faithful(Next(w, op).s)
  {
    match op
    case Add(r, willing) => if Precheck(w.s.nodes, r) == Good { CommitFaithful(w.s, r, willing); }
    case Finish(c, willing) => if c in w.pending { CommitFaithful(w.s, w.pending[c], willing); }
    case Remove(name, gone) => DeleteFaithful(w.s, name, gone);
    case _ =>
  }

  lemma {:induction false} RunStaysFaithful(w: World, ops: seq<Op>)
    requires InStep(w.s) && PendingChecked(w) && Faithful(w.s) && DiskCurrent(w.s)
    requires RunsBelowCapacity(w, ops) && RunKeepsClaims(w, ops)
    ensures Faithful(RunOps(w, ops).s) && DiskCurrent(RunOps(w, ops).s)
  {
    if ops != [] {
      RunStaysFaithful(w, ops[..|ops| - 1]);
      EveryInterleavingAgrees(w, ops[..|ops| - 1]);
      NextIsCurrent(RunOps(w, ops[..|ops| - 1]), ops[|ops| - 1]);
      NextFaithful(RunOps(w, ops[..|ops| - 1]), ops[|ops| - 1]);
    }
  }

  lemma {:induction false} RunStaysCurrent(w: World, ops: seq<Op>)
    requires InStep(w.s) && PendingChecked(w) && DiskCurrent(w.s) && RunsBelowCapacity(w, ops)
    ensures InStep(RunOps(w, ops).s) && DiskCurrent(RunOps(w, ops).s)
  {
    EveryInterleavingAgrees(w, ops);
    if ops != [] {
      EveryInterleavingAgrees(w, ops[..|ops| - 1]);
      RunStaysCurrent(w, ops[..|ops| - 1]);
      NextIsCurrent(RunOps(w, ops[..|ops| - 1]), ops[|ops| - 1]);
    }
  }

  /** After every run from a started server, interleaved adds included, in which no add meets a
      full configuration, a restart goes through, and it rebuilds the live tree exactly when each
      node sits under its parent if the sort creates that first and under Objects otherwise. */
  lemma EditsPersistIff(file: File, ops: seq<Op>)
    requires Load(file).Some? && Proper(Load(file).value.nodes) && Startup(file, {}).Some?
    requires RunsBelowCapacity(World(Startup(file, {}).value, map[]), ops)
    ensures var live := RunOps(World(Startup(file, {}).value, map[]), ops).s;
      Load(live.disk).Some? && Startup(live.disk, {}).Some?
      && (Startup(live.disk, {}).value.server == live.server <==> PlacedInOrder(live.server, Creation(live.disk)))
  {
    StartupAgrees(file, {});
    StartedIsCurrent(file, {});
    RunStaysCurrent(World(Startup(file, {}).value, map[]), ops);
    LiveTreeReturnsIff(RunOps(World(Startup(file, {}).value, map[]), ops).s);
  }

  /** Edits persist: after any run from a started server, interleaved adds included, in which no
      add meets a full configuration or takes a name that is already claimed as a parent, and
      which leaves at least one node and no chain deeper than 32, a restart rebuilds the same
      tree with the same simulated sensors. */
  lemma EditsPersist(file: File, ops: seq<Op>)
    requires Load(file).Some? && Proper(Load(file).value.nodes) && Shallow(Load(file).value.nodes)
    requires Startup(file, {}).Some?
    requires var w := World(Startup(file, {}).value, map[]);
      RunsBelowCapacity(w, ops) && RunKeepsClaims(w, ops)
      && RunOps(w, ops).s.nodes != [] && Shallow(RunOps(w, ops).s.nodes)
    ensures var live := RunOps(World(Startup(file, {}).value, map[]), ops).s;
      Startup(live.disk, {}).Some?
      && Startup(live.disk, {}).value.server == live.server
      && SensorNames(Startup(live.disk, {}).value.sim.sensors) == SensorNames(live.sim.sensors)
      && SameShape(Startup(live.disk, {}).value.nodes, live.nodes)
  {
    var w := World(Startup(file, {}).value, map[]);
    StartupAgrees(file, {});
    StartedIsCurrent(file, {});
    PlacedFaithfullyIff(w.s);
    RunStaysFaithful(w, ops);
    EveryInterleavingAgrees(w, ops);
    RestartRebuilds(RunOps(w, ops).s);
  }

  // ---------- adds under existing parents ----------

  /** No parent name dangles. */
  ghost predicate Closed(nodes: seq<NodeDef>) {
    forall d :: d in nodes ==> d.parentName == "" || d.parentName in Names(nodes)
  }

  /** An add names no parent, or one that is configured when it is committed, and not itself. */
  ghost predicate NamesExistingParent(w: World, op: Op) {
    Committed(w, op).Some? ==>
      var d := DefOf(Committed(w, op).value);
      d.browseName !in Names(w.s.nodes) && (d.parentName == "" || d.parentName in Names(w.s.nodes))
  }

  ghost predicate RunNamesExisting(w: World, ops: seq<Op>) {
    ops == [] || (RunNamesExisting(w, ops[..|ops| - 1])
      && NamesExistingParent(RunOps(w, ops[..|ops| - 1]), ops[|ops| - 1]))
  }

  lemma AppendStaysClosed(nodes: seq<NodeDef>, d: NodeDef)
    requires Closed(nodes) && d.browseName != "" && d.browseName !in Names(nodes)
      && (d.parentName == "" || d.parentName in Names(nodes))
    ensures Closed(nodes + [d]) && Unclaimed(nodes, d)
  {
    NamesAppend(nodes, d);
    UnclaimedMeans(nodes, d);
  }

  lemma DeleteStaysClosed(s: State, name: string, gone: set<string>)
    requires Distinct(s.nodes) && Closed(s.nodes)
    ensures Closed(Delete(s, name, gone).nodes)
  {
    if DeleteStatus(s, name) == Good {
      NamesDrop(s.nodes, Find(s.nodes, name));
      forall d | d in s.nodes ensures d.parentName != name {
        var i :| 0 <= i < |s.nodes| && s.nodes[i] == d;
      }
    }
  }

  lemma NextStaysClosed(w: World, op: Op)
    requires Distinct(w.s.nodes) && Closed(w.s.nodes) && PendingChecked(w) && NamesExistingParent(w, op)
    ensures Closed(Next(w, op).s.nodes) && KeepsClaims(w, op)
  {
    if Committed(w, op).Some? {
      AppendStaysClosed(w.s.nodes, DefOf(Committed(w, op).value));
    } else if op.Remove? {
      DeleteStaysClosed(w.s, op.name, op.gone);
    }
  }

  /** Runs whose adds name only existing parents never take a claimed name. */
  lemma {:induction false} ExistingParentsKeepClaims(w: World, ops: seq<Op>)
    requires InStep(w.s) && PendingChecked(w) && Closed(w.s.nodes)
    requires RunsBelowCapacity(w, ops) && RunNamesExisting(w, ops)
    ensures Closed(RunOps(w, ops).s.nodes) && RunKeepsClaims(w, ops)
  {
    if ops != [] {
      ExistingParentsKeepClaims(w, ops[..|ops| - 1]);
      EveryInterleavingAgrees(w, ops[..|ops| - 1]);
      NextStaysClosed(RunOps(w, ops[..|ops| - 1]), ops[|ops| - 1]);
    }
  }
}

/** Runs of adders, deleters, simulation events and namespace changes, whole or interleaved at
    the one point where an add is not atomic: its checks are made before the lock is taken. */
module Interleavings {
  import opened Collections
  import opened Wrappers
  import opened ServerConfig
  import opened NodeTree
  import opened Simulation
  import opened AddressSpace
  import opened EditRuns
  import opened Agreement

  datatype Op =
    | Add(request: Request, willing: bool)
    | Begin(caller: nat, request: Request)
    | Finish(caller: nat, willing: bool)
    | Remove(name: string, gone: set<string>)
    | Simulate(event: Event)
    | SetNamespace(uri: string)

  /** The state, and the adds that have passed their checks but not yet taken the lock. */
  datatype World = World(s: State, pending: map<nat, Request>)

  function Next(w: World, op: Op): World {
    match op
    case Add(r, willing) => if Precheck(w.s.nodes, r) == Good then w.(s := Commit(w.s, DefOf(r), willing)) else w
    case Begin(c, r) => if Precheck(w.s.nodes, r) == Good then w.(pending := w.pending[c := r]) else w
    case Finish(c, willing) =>
      if c in w.pending then World(Commit(w.s, DefOf(w.pending[c]), willing), w.pending - {c}) else w
    case Remove(name, gone) => w.(s := Delete(w.s, name, gone))
    case Simulate(e) => w.(s := w.s.(sim := Step(w.s.sim, e)))
    case SetNamespace(uri) => w.(s := Saved(w.s.(uri := Clip(uri, NAMESPACE_MAX))))
  }

  function RunOps(w: World, ops: seq<Op>): World {
    if ops == [] then w else Next(RunOps(w, ops[..|ops| - 1]), ops[|ops| - 1])
  }

  /** The server keeps its contract at every delete, and no add meets a full configuration. */
  ghost predicate BelowCapacity(w: World, op: Op) {
    (op.Remove? ==> MayTakeAlong(w.s.server, op.name, op.gone))
    && (op.Add? || op.Finish? ==> |w.s.nodes| < MAX_NODES)
  }

  ghost predicate RunsBelowCapacity(w: World, ops: seq<Op>) {
    ops == [] ||
    (RunsBelowCapacity(w, ops[..|ops| - 1]) && BelowCapacity(RunOps(w, ops[..|ops| - 1]), ops[|ops| - 1]))
  }

  lemma RunSnoc(w: World, ops: seq<Op>, op: Op)
    ensures RunOps(w, ops + [op]) == Next(RunOps(w, ops), op)
    ensures RunsBelowCapacity(w, ops + [op]) <==> RunsBelowCapacity(w, ops) && BelowCapacity(RunOps(w, ops), op)
  {
    assert (ops + [op])[..|ops|] == ops;
  }

  ghost predicate PendingChecked(w: World) {
    forall c :: c in w.pending ==> ValidName(w.pending[c].name)
  }

  // ---------- below capacity ----------

  lemma SimStepAgrees(sim: Sim, made: seq<NodeDef>, e: Event)
    requires SimAgrees(sim, made)
    ensures SimAgrees(Step(sim, e), made)
  {
    StepServes(sim, e);
    var t := Step(sim, e);
    forall i | 0 <= i < |sim.sensors|
      ensures t.sensors[i].name == sim.sensors[i].name && sim.sensors[i] in sim.sensors && t.sensors[i] in t.sensors
    {
    }
    assert SensorNames(t.sensors) == SensorNames(sim.sensors);
  }

  lemma RequestAgrees(s: State, r: Request, willing: bool)
    requires InStep(s) && |s.nodes| < MAX_NODES && ValidName(r.name)
    ensures InStep(Commit(s, DefOf(r), willing))
    ensures Commit(s, DefOf(r), willing).sim.node == s.sim.node
  {
    CommitAgrees(s, DefOf(r), willing);
  }

  lemma RemoveAgrees(s: State, name: string, gone: set<string>)
    requires InStep(s) && MayTakeAlong(s.server, name, gone)
    ensures InStep(Delete(s, name, gone))
    ensures Delete(s, name, gone).sim.node == s.sim.node
  {
    DeleteAgrees(s, name, gone);
  }

  lemma NextAgrees(w: World, op: Op)
    requires InStep(w.s) && PendingChecked(w) && BelowCapacity(w, op)
    ensures InStep(Next(w, op).s) && PendingChecked(Next(w, op))
    ensures Next(w, op).s.sim.node == w.s.sim.node
  {
    match op
    case Add(r, willing) =>
      if Precheck(w.s.nodes, r) == Good { RequestAgrees(w.s, r, willing); }
    case Finish(c, willing) =>
      if c in w.pending { RequestAgrees(w.s, w.pending[c], willing); }
    case Remove(name, gone) => RemoveAgrees(w.s, name, gone);
    case Simulate(e) => SimStepAgrees(w.s.sim, w.s.nodes, e);
    case _ =>
  }

  /** In every interleaving below capacity the map, the server's tree, the sensors and the
      configuration stay in step: names unique, the tree finite and rooted at Objects, one
      sensor for each simulated variable; and the node of the enable flag never changes. */
  lemma {:induction false} EveryInterleavingAgrees(w: World, ops: seq<Op>)
    requires InStep(w.s) && PendingChecked(w) && RunsBelowCapacity(w, ops)
    ensures InStep(RunOps(w, ops).s) && PendingChecked(RunOps(w, ops))
    ensures RunOps(w, ops).s.sim.node == w.s.sim.node
  {
    if ops != [] {
      EveryInterleavingAgrees(w, ops[..|ops| - 1]);
      NextAgrees(RunOps(w, ops[..|ops| - 1]), ops[|ops| - 1]);
    }
  }

  /** What being in step gives a reader of the four structures. */
  lemma InStepMeans(s: State)
    requires InStep(s)
    ensures forall n :: n in s.server ==> Reaches(s.server, Named(n), |s.server|)
    ensures forall d :: d in s.nodes ==> 0 <= MapFind(s.slots, d.browseName) && d.browseName in s.server
    ensures |s.sim.sensors| <= |s.nodes| <= MAX_NODES
    ensures s.sim.node.Some? && s.sim.node.value.Named? ==> 0 <= MapFind(s.slots, s.sim.node.value.name)
    ensures Tracked(s)
  {
    forall n | n in s.server ensures Reaches(s.server, Named(n), |s.server|) {
      var k: nat :| Reaches(s.server, Named(n), k);
      ReachesWithin(s.server, Named(n), k);
    }
    forall d | d in s.nodes ensures 0 <= MapFind(s.slots, d.browseName) && d.browseName in s.server {
      assert d.browseName in Names(s.nodes);
    }
    DistinctInMap(s.slots, s.nodes);
    FewSensors(s.sim, s.nodes);
  }

  lemma {:induction false} SensorCount(sensors: seq<Sensor>)
    requires forall i, j :: 0 <= i < j < |sensors| ==> sensors[i].name != sensors[j].name
    ensures |SensorNames(sensors)| == |sensors|
  {
    if sensors != [] {
      var init, last := sensors[..|sensors| - 1], sensors[|sensors| - 1];
      SensorCount(init);
      SensorAppend(init, last);
      assert sensors == init + [last];
      assert last.name !in SensorNames(init);
    }
  }

  lemma {:induction false} NameCount(nodes: seq<NodeDef>)
    ensures |Names(nodes)| <= |nodes|
  {
    if nodes != [] {
      var init, last := nodes[..|nodes| - 1], nodes[|nodes| - 1];
      NameCount(init);
      NamesAppend(init, last);
      assert nodes == init + [last];
    }
  }

  lemma FewSensors(sim: Sim, made: seq<NodeDef>)
    requires SimAgrees(sim, made)
    ensures |sim.sensors| <= |made|
  {
    SensorCount(sim.sensors);
    NameCount(made);
    SubsetCardinality(SimulatedNames(made), Names(made));
  }

  // ---------- at any capacity ----------

  lemma NextIsTracked(w: World, op: Op)
    requires Tracked(w.s)
    ensures Tracked(Next(w, op).s)
  {
    match op
    case Add(r, willing) => CommitKeepsTracked(w.s, DefOf(r), willing);
    case Finish(c, willing) => if c in w.pending { CommitKeepsTracked(w.s, DefOf(w.pending[c]), willing); }
    case Remove(name, gone) => DeleteKeepsTracked(w.s, name, gone);
    case _ =>
  }

  /** In every interleaving of adders and deleters, whatever the server answers and takes along, also
      at full capacity and where names have come to repeat, every entry has a slot of the map to
      itself, at most four slots stray, and there is a free one while the configuration has room. */
  lemma {:induction false} EveryInterleavingIsTracked(w: World, ops: seq<Op>)
    requires Tracked(w.s)
    ensures Tracked(RunOps(w, ops).s) && |Strays(RunOps(w, ops).s)| <= 4
    ensures forall d :: d in RunOps(w, ops).s.nodes ==> 0 <= MapFind(RunOps(w, ops).s.slots, d.browseName)
    ensures |RunOps(w, ops).s.nodes| < MAX_NODES ==> 0 <= FirstFree(RunOps(w, ops).s.slots)
  {
    if ops != [] {
      EveryInterleavingIsTracked(w, ops[..|ops| - 1]);
      NextIsTracked(RunOps(w, ops[..|ops| - 1]), ops[|ops| - 1]);
    }
    TrackedMeans(RunOps(w, ops).s);
  }

  lemma TrackedMeans(s: State)
    requires Tracked(s)
    ensures |Strays(s)| <= 4
    ensures forall d :: d in s.nodes ==> 0 <= MapFind(s.slots, d.browseName)
    ensures |s.nodes| < MAX_NODES ==> 0 <= FirstFree(s.slots)
  {
    AtMostFourStrays(s);
    NamesInMap(s.slots, s.nodes);
    if |s.nodes| < MAX_NODES {
      RoomToRecord(s);
    }
  }

  // ---------- the node of the enable flag ----------

  /** The node of the enable flag is the first entry of its name, and has the flag's role. */
  ghost predicate FlagHeld(s: State) {
    s.sim.node.Some? ==>
      s.sim.node.value.Named?
      && var i := Find(s.nodes, s.sim.node.value.name); 0 <= i && s.nodes[i].role == ROLE_SIMULATION
  }

  lemma InStepHoldsFlag(s: State)
    requires InStep(s)
    ensures FlagHeld(s)
  {
    if s.sim.node.Some? {
      var d :| d in s.nodes && IsFlag(d) && s.sim.node == Some(Named(d.browseName));
      var i :| 0 <= i < |s.nodes| && s.nodes[i] == d;
      assert Find(s.nodes, d.browseName) == i;
    }
  }

  lemma FindAppend(nodes: seq<NodeDef>, d: NodeDef, name: string)
    requires 0 <= Find(nodes, name)
    ensures Find(nodes + [d], name) == Find(nodes, name)
  {
    var all := nodes + [d];
    assert forall j :: 0 <= j < |nodes| ==> all[j] == nodes[j];
    assert all[Find(nodes, name)] in all;
  }

  lemma FindDrop(nodes: seq<NodeDef>, i: nat, name: string)
    requires i < |nodes| && nodes[i].browseName != name && 0 <= Find(nodes, name)
    ensures 0 <= Find(Drop(nodes, i), name) && Drop(nodes, i)[Find(Drop(nodes, i), name)] == nodes[Find(nodes, name)]
  {
    var r, k := Drop(nodes, i), Find(nodes, name);
    assert forall j :: 0 <= j < |r| ==> r[j] == nodes[if j < i then j else j + 1];
    var j := if k < i then k else k - 1;
    assert r[j] == nodes[k];
    assert Find(r, name) == j;
  }

  lemma CommitHoldsFlag(s: State, r: Request, willing: bool)
    requires FlagHeld(s)
    ensures FlagHeld(Commit(s, DefOf(r), willing)) && Commit(s, DefOf(r), willing).sim.node == s.sim.node
  {
    if s.sim.node.Some? {
      FindAppend(s.nodes, DefOf(r), s.sim.node.value.name);
    }
  }

  lemma DeleteHoldsFlag(s: State, name: string, gone: set<string>)
    requires FlagHeld(s)
    ensures FlagHeld(Delete(s, name, gone)) && Delete(s, name, gone).sim.node == s.sim.node
  {
    if s.sim.node.Some? && DeleteStatus(s, name) == Good {
      FindDrop(s.nodes, Find(s.nodes, name), s.sim.node.value.name);
    }
  }

  lemma NextHoldsFlag(w: World, op: Op)
    requires FlagHeld(w.s)
    ensures FlagHeld(Next(w, op).s) && Next(w, op).s.sim.node == w.s.sim.node
  {
    match op
    case Add(r, willing) => CommitHoldsFlag(w.s, r, willing);
    case Finish(c, willing) => if c in w.pending { CommitHoldsFlag(w.s, w.pending[c], willing); }
    case Remove(name, gone) => DeleteHoldsFlag(w.s, name, gone);
    case _ =>
  }

  /** In every such interleaving, at any capacity, the node of the enable flag stays the same, stays
      configured under its role, and stays in the map. */
  lemma {:induction false} FlagStaysInMap(w: World, ops: seq<Op>)
    requires Tracked(w.s) && FlagHeld(w.s)
    ensures FlagHeld(RunOps(w, ops).s) && RunOps(w, ops).s.sim.node == w.s.sim.node
    ensures w.s.sim.node.Some? ==> 0 <= MapFind(RunOps(w, ops).s.slots, w.s.sim.node.value.name)
  {
    if ops != [] {
      FlagStaysInMap(w, ops[..|ops| - 1]);
      NextHoldsFlag(RunOps(w, ops[..|ops| - 1]), ops[|ops| - 1]);
    }
    EveryInterleavingIsTracked(w, ops);
    if w.s.sim.node.Some? {
      var s := RunOps(w, ops).s;
      assert s.nodes[Find(s.nodes, w.s.sim.node.value.name)] in s.nodes;
    }
  }

  // ---------- unique names at any capacity ----------

  ghost predicate IdsNamed(slots: seq<Slot>) {
    forall i :: 0 <= i < |slots| && slots[i].Used? ==> slots[i].id == Named(slots[i].name)
  }

  /** These nodes are on the server, each under its named parent or under Objects. */
  ghost predicate OnServer(server: map<string, NodeId>, nodes: seq<NodeDef>) {
    forall d :: d in nodes ==>
      d.browseName in server && (server[d.browseName] == Objects || server[d.browseName] == Named(d.parentName))
  }

  /** Names are unique, map entries name their nodes, and every entry is on the server. */
  ghost predicate Rooted(s: State) {
    Distinct(s.nodes) && IdsNamed(s.slots) && OnServer(s.server, s.nodes)
  }

  ghost predicate Held(s: State) {
    Tracked(s) && Rooted(s)
  }

  lemma CommitRooted(s: State, def: NodeDef, willing: bool)
    requires Rooted(s) && CanCreate(s, def, willing)
    ensures Rooted(Commit(s, def, willing))
  {
    assert def.browseName !in Names(s.nodes);
    NamesAppend(s.nodes, def);
    forall d | d in s.nodes ensures d.browseName != def.browseName {
      assert d.browseName in Names(s.nodes);
    }
  }

  lemma CommitHolds(s: State, def: NodeDef, willing: bool)
    requires Held(s)
    ensures Held(Commit(s, def, willing))
  {
    CommitKeepsTracked(s, def, willing);
    if CanCreate(s, def, willing) {
      CommitRooted(s, def, willing);
    }
  }

  /** The server takes no other configured node along with this one. */
  ghost predicate Spares(s: State, name: string, gone: set<string>) {
    gone * Names(s.nodes) <= {name}
  }

  lemma LosesNamed(slots: seq<Slot>, name: string, gone: set<string>)
    requires IdsNamed(slots) && 0 <= MapFind(slots, name)
    ensures Lost(slots, name, gone) == gone + {name}
  {
  }

  lemma DeletedFromServer(s: State, name: string, gone: set<string>)
    requires Held(s) && DeleteStatus(s, name) == Good
    ensures var t := Delete(s, name, gone);
      Tracked(t) && t.nodes == Drop(s.nodes, Find(s.nodes, name)) && t.server == s.server - (gone + {name})
      && t.slots == MapRemove(s.slots, name) && Distinct(t.nodes) && Names(t.nodes) == Names(s.nodes) - {name}
      && forall d :: d in t.nodes <==> d in s.nodes && d.browseName != name
  {
    var i := Find(s.nodes, name);
    DeleteKeepsTracked(s, name, gone);
    NamesDrop(s.nodes, i);
    NamesInMap(s.slots, s.nodes);
    assert s.nodes[i] in s.nodes;
    LosesNamed(s.slots, name, gone);
  }

  lemma RestOnServer(server: map<string, NodeId>, nodes: seq<NodeDef>, lost: set<string>, later: seq<NodeDef>)
    requires OnServer(server, nodes) && forall d :: d in later ==> d in nodes && d.browseName !in lost
    ensures OnServer(server - lost, later)
  {
  }

  lemma RestIsHeld(s: State, t: State, name: string, lost: set<string>)
    requires Held(s) && Tracked(t) && Distinct(t.nodes)
    requires t.slots == MapRemove(s.slots, name) && t.server == s.server - lost
    requires forall d :: d in t.nodes ==> d in s.nodes && d.browseName !in lost
    ensures Held(t)
  {
    RestOnServer(s.server, s.nodes, lost, t.nodes);
  }

  lemma RestIsSpared(nodes: seq<NodeDef>, later: seq<NodeDef>, name: string, gone: set<string>)
    requires gone * Names(nodes) <= {name} && forall d :: d in later <==> d in nodes && d.browseName != name
    ensures forall d :: d in later ==> d in nodes && d.browseName !in gone + {name}
  {
    forall d | d in later ensures d in nodes && d.browseName !in gone + {name} {
      assert d.browseName in gone ==> d.browseName in gone * Names(nodes);
    }
  }

  lemma DeleteHolds(s: State, t: State, name: string, gone: set<string>)
    requires Held(s) && DeleteStatus(s, name) == Good && Spares(s, name, gone) && t == Delete(s, name, gone)
    ensures Held(t)
  {
    DeletedFromServer(s, name, gone);
    RestIsSpared(s.nodes, t.nodes, name, gone);
    RestIsHeld(s, t, name, gone + {name});
  }

  lemma TakenAlongBreaks(s: State, name: string, gone: set<string>, n: string)
    requires Held(s) && DeleteStatus(s, name) == Good && n in gone * Names(s.nodes) && n != name
    ensures !Held(Delete(s, name, gone))
  {
    DeletedFromServer(s, name, gone);
    var d :| d in s.nodes && d.browseName == n;
    assert d in Delete(s, name, gone).nodes;
  }

  /** A delete that goes through leaves every entry on the server exactly when the server takes no
      other configured node along. */
  lemma DeleteHoldsIff(s: State, name: string, gone: set<string>)
    requires Held(s) && DeleteStatus(s, name) == Good
    ensures Held(Delete(s, name, gone)) <==> Spares(s, name, gone)
  {
    if Spares(s, name, gone) {
      DeleteHolds(s, Delete(s, name, gone), name, gone);
    }
    if n :| n in gone * Names(s.nodes) && n != name {
      TakenAlongBreaks(s, name, gone, n);
    }
  }

  ghost predicate SparesAt(w: World, op: Op) {
    op.Remove? && DeleteStatus(w.s, op.name) == Good ==> Spares(w.s, op.name, op.gone)
  }

  /** No delete of the run takes another configured node along. */
  ghost predicate RunSpares(w: World, ops: seq<Op>) {
    ops == [] || (RunSpares(w, ops[..|ops| - 1]) && SparesAt(RunOps(w, ops[..|ops| - 1]), ops[|ops| - 1]))
  }

  lemma NextHolds(w: World, op: Op)
    requires Held(w.s) && SparesAt(w, op)
    ensures Held(Next(w, op).s)
  {
    match op
    case Add(r, willing) => CommitHolds(w.s, DefOf(r), willing);
    case Finish(c, willing) => if c in w.pending { CommitHolds(w.s, DefOf(w.pending[c]), willing); }
    case Remove(name, gone) => if DeleteStatus(w.s, name) == Good { DeleteHoldsIff(w.s, name, gone); }
    case _ =>
  }

  /** As long as no delete takes another configured node along, names stay unique in every
      interleaving of any number of adders and deleters, also at full capacity, although an add's
      check for a duplicate may be out of date when it takes the lock. */
  lemma {:induction false} EveryInterleavingHolds(w: World, ops: seq<Op>)
    requires Held(w.s) && RunSpares(w, ops)
    ensures Held(RunOps(w, ops).s) && Distinct(RunOps(w, ops).s.nodes)
  {
    if ops != [] {
      EveryInterleavingHolds(w, ops[..|ops| - 1]);
      NextHolds(RunOps(w, ops[..|ops| - 1]), ops[|ops| - 1]);
    }
  }

  /** Names are unique after every add that an outdated check lets through. */
  ghost predicate KeepsNamesUnique(t: State) {
    forall def :: Distinct(Commit(t, def, true).nodes)
  }

  lemma LostNameComesTwice(t: State, def: NodeDef)
    requires def.browseName in Names(t.nodes) && def.browseName !in t.server && def.parentName == ""
    requires |t.nodes| < MAX_NODES
    ensures !Distinct(Commit(t, def, true).nodes)
  {
    var all := Commit(t, def, true).nodes;
    assert all == t.nodes + [def];
    var d :| d in t.nodes && d.browseName == def.browseName;
    var i :| 0 <= i < |t.nodes| && t.nodes[i] == d;
    assert all[i].browseName == all[|t.nodes|].browseName;
  }

  /** That condition is exact: after a delete, names stay unique whatever is added next exactly
      when the delete took no other configured node along. */
  lemma NamesStayUniqueIff(s: State, name: string, gone: set<string>)
    requires Held(s) && DeleteStatus(s, name) == Good
    ensures KeepsNamesUnique(Delete(s, name, gone)) <==> Spares(s, name, gone)
  {
    var t := Delete(s, name, gone);
    DeletedFromServer(s, name, gone);
    if Spares(s, name, gone) {
      DeleteHoldsIff(s, name, gone);
      forall def ensures Distinct(Commit(t, def, true).nodes) {
        CommitHolds(t, def, true);
      }
    } else {
      var y :| y in gone * Names(s.nodes) && y != name;
      LostNameComesTwice(t, DefOf(FolderRequest("", y, "")).(browseName := y));
    }
  }

  /** Below capacity every delete keeps to that. */
  lemma InStepSpares(s: State, name: string, gone: set<string>)
    requires InStep(s) && MayTakeAlong(s.server, name, gone) && DeleteStatus(s, name) == Good
    ensures gone == {} && Spares(s, name, gone)
  {
    ChildlessIsLeaf(s.server, s.nodes, name);
  }

  /** A delete that goes through removes a leaf of the server's tree exactly when the node has
      no child there that was created without room in the configuration. */
  lemma DeleteRemovesLeafIff(s: State, name: string)
    requires Held(s) && DeleteStatus(s, name) == Good
    ensures IsLeaf(s.server, name)
       <==> forall n :: n in s.server && n !in Names(s.nodes) ==> s.server[n] != Named(name)
  {
    forall n | n in s.server && n in Names(s.nodes) ensures s.server[n] != Named(name) {
      var d :| d in s.nodes && d.browseName == n;
      var i :| 0 <= i < |s.nodes| && s.nodes[i] == d;
      assert s.nodes[i].parentName != name;
    }
  }

  /** At full capacity that fails: a node added under a deletable one is created but not
      recorded, and the delete of its parent still goes through. */
  lemma FullCapacityHidesAChild(s: State, name: string, child: string)
    requires InStep(s) && |s.nodes| == MAX_NODES && |name| < NAME_MAX && DeleteStatus(s, name) == Good
    requires ValidName(child) && child !in Names(s.nodes)
    ensures var t := Next(World(s, map[]), Add(FolderRequest(name, child, ""), true)).s;
      t.nodes == s.nodes && child in t.server && t.server[child] == Named(name)
      && DeleteStatus(t, name) == Good && !IsLeaf(t.server, name)
  {
    var r := FolderRequest(name, child, "");
    assert Find(s.nodes, child) < 0;
    assert s.nodes[Find(s.nodes, name)] in s.nodes;
    InStepMeans(s);
    ResolvesToTarget(s.slots, s.nodes, name);
  }
}

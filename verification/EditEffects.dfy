/** What one edit does, field by field: to the server's tree, the map, the sensors, the configuration
    and the file, as a caller of the add, delete and namespace requests sees it. */
module EditEffects {
  import opened Wrappers
  import opened ServerConfig
  import opened ConfigFiles
  import opened NodeTree
  import opened Simulation
  import opened AddressSpace
  import opened EditRuns
  import opened Agreement
  import opened Interleavings
  import opened Restart

  // ---------- adding ----------

  /** The entry is the last one that the file loads. */
  ghost predicate LastInFile(disk: File, uri: string, entry: NodeDef) {
    Load(disk).Some? && Load(disk).value.namespaceUri == uri
    && var nodes := Load(disk).value.nodes; nodes != [] && nodes[|nodes| - 1] == entry
  }

  /** The node of the entry has been added: on the server under its parent, or under Objects if that is
      not configured; in the map; last in the configuration and in the file. */
  ghost predicate Added(s: State, t: State, entry: NodeDef) {
    t.server
      == s.server[entry.browseName := if entry.parentName in Names(s.nodes) then Named(entry.parentName) else Objects]
    && 0 <= MapFind(t.slots, entry.browseName)
    && t.slots[MapFind(t.slots, entry.browseName)].id == Named(entry.browseName)
    && t.nodes == s.nodes + [entry] && t.uri == s.uri && LastInFile(t.disk, s.uri, entry)
    && t.sim.enabled == s.sim.enabled && t.sim.node == s.sim.node
  }

  /** A simulated variable gets a new sensor, false and not overridden; other entries get none. */
  ghost predicate AddedSensor(s: State, t: State, entry: NodeDef, simulated: bool) {
    t.sim.sensors == s.sim.sensors
      + if simulated then [Sensor(Named(entry.browseName), entry.browseName, false, false)] else []
  }

  /** What is served stays, and a Boolean variable serves false. */
  ghost predicate AddedValue(s: State, t: State, entry: NodeDef) {
    t.sim.served
      == if entry.kind == "variable" && entry.dataType == Boolean
         then s.sim.served[Named(entry.browseName) := false] else s.sim.served
  }

  /** A state in which an add of this name would be recorded. */
  ghost predicate Ready(s: State, name: string) {
    InStep(s) && DiskCurrent(s) && |s.nodes| < 256 && ValidName(name) && name !in Names(s.nodes)
  }

  lemma SavedLast(uri: string, nodes: seq<NodeDef>, entry: NodeDef)
    requires FitsAll(Config(uri, nodes)) && |nodes| < 256 && Fits(entry) && Stored(entry) == entry
    ensures LastInFile(Tree(ToJson(Config(uri, nodes + [entry]))), uri, entry)
  {
    LoadSaved(Config(uri, nodes + [entry]));
  }

  lemma CommitAdds(s: State, entry: NodeDef)
    requires Ready(s, entry.browseName) && Fits(entry) && Stored(entry) == entry && KnownKind(entry) && entry.role == ""
    ensures CanCreate(s, entry, true) && Added(s, Commit(s, entry, true), entry)
  {
    ResolvesToTarget(s.slots, s.nodes, entry.parentName);
    FreeSlot(s.slots, s.nodes);
    MapAddFinds(s.slots, entry.browseName, Named(entry.browseName), entry.browseName);
    SavedLast(s.uri, s.nodes, entry);
    CommitAgrees(s, entry, true);
  }

  /** The entry a variable request stands for: its own fields, as far as the buffers go. */
  function VariableEntry(parent: string, name: string, display: string, dt: DataType, simulation: bool): NodeDef {
    NodeDef("variable", name, Kept(display, 127), Kept(parent, 63), dt, simulation, "")
  }

  function FolderEntry(parent: string, name: string, display: string): NodeDef {
    NodeDef("folder", name, Kept(display, 127), Kept(parent, 63), Boolean, false, "")
  }

  lemma CommitServes(s: State, entry: NodeDef)
    requires CanCreate(s, entry, true) && entry.role == ""
    ensures AddedValue(s, Commit(s, entry, true), entry)
    ensures AddedSensor(s, Commit(s, entry, true), entry,
                        entry.kind == "variable" && entry.dataType == Boolean && entry.simulation)
  {
  }

  lemma EntryOfVariable(parent: string, name: string, display: string, dt: DataType, simulation: bool)
    requires ValidName(name)
    ensures var entry := VariableEntry(parent, name, display, dt, simulation);
      DefOf(VariableRequest(parent, name, display, dt, simulation)) == entry
      && Fits(entry) && Stored(entry) == entry && KnownKind(entry) && entry.browseName == name
  {
  }

  lemma EntryOfFolder(parent: string, name: string, display: string)
    requires ValidName(name)
    ensures var entry := FolderEntry(parent, name, display);
      DefOf(FolderRequest(parent, name, display)) == entry
      && Fits(entry) && Stored(entry) == entry && KnownKind(entry) && entry.browseName == name
  {
  }

  lemma CommitsEntry(s: State, entry: NodeDef)
    requires Ready(s, entry.browseName) && Fits(entry) && Stored(entry) == entry && KnownKind(entry) && entry.role == ""
    ensures var t := Commit(s, entry, true);
      CommitStatus(s, entry, true) == Good && Added(s, t, entry) && AddedValue(s, t, entry)
      && AddedSensor(s, t, entry, entry.kind == "variable" && entry.dataType == Boolean && entry.simulation)
  {
    CommitAdds(s, entry);
    CommitServes(s, entry);
  }

  lemma CommitsVariable(s: State, parent: string, name: string, display: string, dt: DataType, simulation: bool)
    requires Ready(s, name)
    ensures var r, entry := VariableRequest(parent, name, display, dt, simulation),
                            VariableEntry(parent, name, display, dt, simulation);
      var t := Commit(s, DefOf(r), true);
      CommitStatus(s, DefOf(r), true) == Good && Added(s, t, entry) && AddedValue(s, t, entry)
      && AddedSensor(s, t, entry, dt == Boolean && simulation)
  {
    EntryOfVariable(parent, name, display, dt, simulation);
    CommitsEntry(s, VariableEntry(parent, name, display, dt, simulation));
  }

  lemma CommitsFolder(s: State, parent: string, name: string, display: string)
    requires Ready(s, name)
    ensures var r, entry := FolderRequest(parent, name, display), FolderEntry(parent, name, display);
      var t := Commit(s, DefOf(r), true);
      CommitStatus(s, DefOf(r), true) == Good && Added(s, t, entry) && AddedValue(s, t, entry)
      && AddedSensor(s, t, entry, false)
  {
    EntryOfFolder(parent, name, display);
    CommitsEntry(s, FolderEntry(parent, name, display));
  }

  /** An add of a variable to a server that is willing, below capacity. */
  lemma AddsVariable(w: World, parent: string, name: string, display: string, dt: DataType, simulation: bool)
    requires Ready(w.s, name) && (simulation ==> dt == Boolean)
    ensures var u := Next(w, Add(VariableRequest(parent, name, display, dt, simulation), true));
      var entry := VariableEntry(parent, name, display, dt, simulation);
      Added(w.s, u.s, entry) && AddedSensor(w.s, u.s, entry, simulation) && AddedValue(w.s, u.s, entry)
      && u.pending == w.pending
  {
    CommitsVariable(w.s, parent, name, display, dt, simulation);
  }

  lemma AddsFolder(w: World, parent: string, name: string, display: string)
    requires Ready(w.s, name)
    ensures var u := Next(w, Add(FolderRequest(parent, name, display), true));
      var entry := FolderEntry(parent, name, display);
      Added(w.s, u.s, entry) && AddedSensor(w.s, u.s, entry, false) && AddedValue(w.s, u.s, entry)
      && u.pending == w.pending
  {
    CommitsFolder(w.s, parent, name, display);
  }

  /** An add whose checks were made earlier, whatever has happened in between. */
  lemma FinishesVariable(w: World, c: nat, parent: string, name: string, display: string,
                         dt: DataType, simulation: bool)
    requires Ready(w.s, name) && (simulation ==> dt == Boolean)
    requires c in w.pending && w.pending[c] == VariableRequest(parent, name, display, dt, simulation)
    ensures var u := Next(w, Finish(c, true)); var entry := VariableEntry(parent, name, display, dt, simulation);
      Added(w.s, u.s, entry) && AddedSensor(w.s, u.s, entry, simulation) && AddedValue(w.s, u.s, entry)
      && u.pending == w.pending - {c}
  {
    CommitsVariable(w.s, parent, name, display, dt, simulation);
  }

  lemma FinishesFolder(w: World, c: nat, parent: string, name: string, display: string)
    requires Ready(w.s, name) && c in w.pending && w.pending[c] == FolderRequest(parent, name, display)
    ensures var u := Next(w, Finish(c, true)); var entry := FolderEntry(parent, name, display);
      Added(w.s, u.s, entry) && AddedSensor(w.s, u.s, entry, false) && AddedValue(w.s, u.s, entry)
      && u.pending == w.pending - {c}
  {
    CommitsFolder(w.s, parent, name, display);
  }

  /** If the name has been taken in between, or the server is not willing, it changes nothing. */
  lemma FinishesLate(w: World, c: nat, willing: bool)
    requires InStep(w.s) && c in w.pending && ValidName(w.pending[c].name)
    requires w.pending[c].name in Names(w.s.nodes) || !willing
    ensures Next(w, Finish(c, willing)) == World(w.s, w.pending - {c})
    ensures CommitStatus(w.s, DefOf(w.pending[c]), willing) == Refused
  {
    assert DefOf(w.pending[c]).browseName == w.pending[c].name;
  }

  /** The checks before the lock: which requests go on, and what the others are told. */
  lemma PrecheckIff(nodes: seq<NodeDef>, r: Request)
    ensures var typed := r.VariableRequest? && r.simulation && r.dataType != Boolean;
      (Precheck(nodes, r) == Good <==> ValidName(r.name) && r.name !in Names(nodes) && !typed)
      && (Precheck(nodes, r) == BadNodeIdExists <==> ValidName(r.name) && r.name in Names(nodes))
      && (Precheck(nodes, r) == BadInvalidArgument <==> !ValidName(r.name) || (typed && r.name !in Names(nodes)))
  {
  }

  /** A request that passes them waits as it is; another changes nothing. */
  lemma BeginsIff(w: World, c: nat, r: Request)
    ensures Next(w, Begin(c, r)).s == w.s
    ensures var ok := ValidName(r.name) && r.name !in Names(w.s.nodes)
                      && !(r.VariableRequest? && r.simulation && r.dataType != Boolean);
      Next(w, Begin(c, r)).pending == (if ok then w.pending[c := r] else w.pending)
      && (!ok ==> forall willing :: Next(w, Add(r, willing)) == w)
  {
    PrecheckIff(w.s.nodes, r);
  }

  // ---------- deleting ----------

  /** When a delete is refused, and with which status; the flag's node cannot be deleted. */
  lemma DeleteStatusIff(s: State, name: string, i: nat)
    requires i < |s.nodes| && s.nodes[i].browseName == name && forall k :: 0 <= k < i ==> s.nodes[k].browseName != name
    ensures var parent := exists d :: d in s.nodes && d.parentName == name;
      (DeleteStatus(s, name) == BadUserAccessDenied <==> s.nodes[i].role == "simulationEnabled")
      && (DeleteStatus(s, name) == BadNotImplemented <==> s.nodes[i].role != "simulationEnabled" && parent)
      && (DeleteStatus(s, name) == Good <==> s.nodes[i].role != "simulationEnabled" && !parent)
  {
    assert s.nodes[i] in s.nodes;
    assert Find(s.nodes, name) == i;
    ParentIff(s.nodes, name);
  }

  lemma ParentIff(nodes: seq<NodeDef>, name: string)
    ensures HasChildren(nodes, name) <==> exists d :: d in nodes && d.parentName == name
  {
    if d :| d in nodes && d.parentName == name {
      var i :| 0 <= i < |nodes| && nodes[i] == d;
    }
    if HasChildren(nodes, name) {
      var i :| 0 <= i < |nodes| && nodes[i].parentName == name;
      assert nodes[i] in nodes;
    }
  }

  lemma UnknownDelete(s: State, name: string)
    requires name !in Names(s.nodes)
    ensures DeleteStatus(s, name) == BadNodeIdUnknown
  {
  }

  lemma RefusedDelete(s: State, name: string, gone: set<string>)
    requires DeleteStatus(s, name) != Good
    ensures Delete(s, name, gone) == s
  {
  }

  /** A delete that goes through takes the node off the server, out of the map, and out of what is
      served; its sensor and its entry go, and the others stay in order. */
  lemma DeletesNode(s: State, name: string, gone: set<string>, i: nat)
    requires InStep(s) && MayTakeAlong(s.server, name, gone) && DeleteStatus(s, name) == Good
    requires i < |s.nodes| && s.nodes[i].browseName == name
    ensures var t := Delete(s, name, gone);
      t.server == s.server - {name} && MapFind(t.slots, name) < 0 && t.nodes == s.nodes[..i] + s.nodes[i + 1..]
      && t.sim.served == s.sim.served - {Named(name)} && t.uri == s.uri
      && t.sim.enabled == s.sim.enabled && t.sim.node == s.sim.node
  {
    DeleteAgrees(s, name, gone);
    ChildlessIsLeaf(s.server, s.nodes, name);
    assert s.nodes[i] in s.nodes && Find(s.nodes, name) == i;
    assert IdsOf({name}) == {Named(name)};
    WithoutParts(s, name);
    NamesDrop(s.nodes, i);
  }

  /** Exactly the sensor of that name goes. */
  lemma DeletesSensor(s: State, name: string, gone: set<string>, i: nat)
    requires InStep(s) && DeleteStatus(s, name) == Good && i < |s.sim.sensors| && s.sim.sensors[i].name == name
    ensures Delete(s, name, gone).sim.sensors == s.sim.sensors[..i] + s.sim.sensors[i + 1..]
  {
    assert SensorAt(s.sim.sensors, name) == i;
  }

  lemma DeletesNoSensor(s: State, name: string, gone: set<string>)
    requires DeleteStatus(s, name) == Good && forall x :: x in s.sim.sensors ==> x.name != name
    ensures Delete(s, name, gone).sim.sensors == s.sim.sensors
  {
  }

  // ---------- the namespace ----------

  /** Setting the namespace changes it, as far as its buffer goes, and the file. */
  lemma SetsNamespace(w: World, uri: string)
    requires DiskCurrent(w.s)
    ensures var u := Next(w, SetNamespace(uri));
      u == w.(s := w.s.(uri := Kept(uri, 255), disk := u.s.disk))
      && Load(u.s.disk).Some? && (w.s.nodes != [] ==> Load(u.s.disk).value.namespaceUri == Kept(uri, 255))
  {
    LoadSaved(Config(Kept(uri, 255), w.s.nodes));
  }
}

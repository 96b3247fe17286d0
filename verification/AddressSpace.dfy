/** The state the node manager keeps in step, as a value: configuration, browse map, sensors,
    the server's own node tree and the saved file; and what build, add and delete do to it. */
module AddressSpace {
  import opened Wrappers
  import opened ServerConfig
  import opened NodeTree
  import opened Simulation

  const MAP_MAX := MAX_NODES + 4

  datatype Slot = Free | Used(name: string, id: NodeId)

  datatype Status =
    | Good | BadInvalidArgument | BadNodeIdExists | BadNodeIdUnknown
    | BadUserAccessDenied | BadNotImplemented | Refused

  /** `server` gives each node of the server's tree its parent. */
  datatype State = State(
    uri: string, nodes: seq<NodeDef>, slots: seq<Slot>, sim: Sim,
    server: map<string, NodeId>, disk: File)

  // ---------- the browse map ----------

  /** The index of the first used slot of that name, or -1. */
  function MapFind(slots: seq<Slot>, name: string): (i: int)
    ensures -1 <= i < |slots|
    ensures 0 <= i ==> slots[i].Used? && slots[i].name == name
    ensures forall k :: 0 <= k < (if i < 0 then |slots| else i) ==> !(slots[k].Used? && slots[k].name == name)
  {
    if slots == [] then -1
    else if slots[0].Used? && slots[0].name == name then 0
    else
      var i := MapFind(slots[1..], name);
      assert forall k :: 0 < k < |slots| ==> slots[k] == slots[1..][k - 1];
      if i < 0 then -1 else i + 1
  }

  /** The index of the first free slot, or -1. */
  function FirstFree(slots: seq<Slot>): (i: int)
    ensures -1 <= i < |slots|
    ensures 0 <= i ==> slots[i].Free?
    ensures forall k :: 0 <= k < (if i < 0 then |slots| else i) ==> slots[k].Used?
  {
    if slots == [] then -1
    else if slots[0].Free? then 0
    else
      var i := FirstFree(slots[1..]);
      assert forall k :: 0 < k < |slots| ==> slots[k] == slots[1..][k - 1];
      if i < 0 then -1 else i + 1
  }

  /** A full map drops the entry without a word. */
  function MapAdd(slots: seq<Slot>, name: string, id: NodeId): seq<Slot> {
    var i := FirstFree(slots);
    if i < 0 then slots else slots[i := Used(name, id)]
  }

  function MapRemove(slots: seq<Slot>, name: string): seq<Slot> {
    var i := MapFind(slots, name);
    if i < 0 then slots else slots[i := Free]
  }

  /** An empty or unknown parent name stands for the Objects folder. */
  function ResolveParent(slots: seq<Slot>, parent: string): NodeId {
    if parent == "" || MapFind(slots, parent) < 0 then Objects else slots[MapFind(slots, parent)].id
  }

  // ---------- the server's own tree ----------

  /** The server takes a node only if its id is fresh and its parent exists; it may refuse. */
  predicate Takes(server: map<string, NodeId>, name: string, parent: NodeId, willing: bool) {
    willing && name !in server && (parent == Objects || parent.name in server)
  }

  /** Deleting a node may take others with it only if it has children. */
  ghost predicate MayTakeAlong(server: map<string, NodeId>, name: string, gone: set<string>) {
    (forall n :: n in server ==> server[n] != Named(name)) ==> gone == {}
  }

  // ---------- creating nodes ----------

  predicate IsFlag(def: NodeDef) {
    def.kind == VARIABLE && def.role == ROLE_SIMULATION
  }

  predicate IsSimulated(def: NodeDef) {
    def.kind == VARIABLE && def.role != ROLE_SIMULATION && def.dataType == Boolean && def.simulation
  }

  function SimWith(sim: Sim, def: NodeDef): Sim {
    var id := Named(def.browseName);
    var served := if def.kind == VARIABLE && def.dataType == Boolean then sim.served[id := false] else sim.served;
    if IsFlag(def) then sim.(enabled := true, node := Some(id), served := served)
    else if IsSimulated(def) then
      sim.(sensors := sim.sensors + [Sensor(id, def.browseName, false, false)], served := served)
    else sim.(served := served)
  }

  predicate CanCreate(s: State, def: NodeDef, willing: bool) {
    Takes(s.server, def.browseName, ResolveParent(s.slots, def.parentName), willing)
  }

  /** Folder or variable: the new server node, its map entry, and its part in the simulation. */
  function With(s: State, def: NodeDef): State {
    s.(server := s.server[def.browseName := ResolveParent(s.slots, def.parentName)],
       slots := MapAdd(s.slots, def.browseName, Named(def.browseName)),
       sim := SimWith(s.sim, def))
  }

  predicate KnownKind(def: NodeDef) {
    def.kind == FOLDER || def.kind == VARIABLE
  }

  /** Create entry after entry, skipping unknown kinds; the first refusal ends it. */
  function BuildAll(s: State, defs: seq<NodeDef>, unwilling: set<string>): Option<State> {
    if defs == [] then Some(s)
    else
      var before := BuildAll(s, defs[..|defs| - 1], unwilling);
      var def := defs[|defs| - 1];
      if before.None? || !KnownKind(def) then before
      else if CanCreate(before.value, def, def.browseName !in unwilling) then Some(With(before.value, def))
      else None
  }

  function Blank(cfg: Config, disk: File): State {
    State(cfg.namespaceUri, cfg.nodes, seq(MAP_MAX, _ => Free), Sim(true, None, [], map[]), map[], disk)
  }

  // ---------- edits ----------

  datatype Request =
    | FolderRequest(parent: string, name: string, display: string)
    | VariableRequest(parent: string, name: string, display: string, dataType: DataType, simulation: bool)

  function DefOf(r: Request): NodeDef {
    match r
    case FolderRequest(parent, name, display) =>
      NodeDef(FOLDER, Clip(name, NAME_MAX), Clip(display, DISPLAY_MAX), Clip(parent, NAME_MAX), Boolean, false, "")
    case VariableRequest(parent, name, display, dt, simulation) =>
      NodeDef(VARIABLE, Clip(name, NAME_MAX), Clip(display, DISPLAY_MAX), Clip(parent, NAME_MAX), dt, simulation, "")
  }

  /** The checks made before the lock is taken. */
  function Precheck(nodes: seq<NodeDef>, r: Request): Status {
    if !ValidName(r.name) then BadInvalidArgument
    else if 0 <= Find(nodes, r.name) then BadNodeIdExists
    else if r.VariableRequest? && r.simulation && r.dataType != Boolean then BadInvalidArgument
    else Good
  }

  function Saved(s: State): State {
    s.(disk := Tree(ToJson(Config(s.uri, s.nodes))))
  }

  /** The locked part of an add: create the node, then record it if the configuration has room. */
  function Commit(s: State, def: NodeDef, willing: bool): State {
    if !CanCreate(s, def, willing) then s
    else
      var t := With(s, def);
      if |t.nodes| < MAX_NODES then Saved(t.(nodes := t.nodes + [def])) else t
  }

  function CommitStatus(s: State, def: NodeDef, willing: bool): Status {
    if CanCreate(s, def, willing) then Good else Refused
  }

  predicate HasChildren(nodes: seq<NodeDef>, name: string) {
    exists i :: 0 <= i < |nodes| && nodes[i].parentName == name
  }

  function DeleteStatus(s: State, name: string): Status {
    var idx := Find(s.nodes, name);
    if idx < 0 then BadNodeIdUnknown
    else if s.nodes[idx].role == ROLE_SIMULATION then BadUserAccessDenied
    else if HasChildren(s.nodes, name) then BadNotImplemented
    else Good
  }

  function Drop<T>(s: seq<T>, i: nat): seq<T>
    requires i < |s|
  {
    s[..i] + s[i + 1..]
  }

  /** The index of the first sensor of that name, or -1. */
  function SensorAt(sensors: seq<Sensor>, name: string): (i: int)
    ensures -1 <= i < |sensors|
    ensures 0 <= i ==> sensors[i].name == name
    ensures forall k :: 0 <= k < (if i < 0 then |sensors| else i) ==> sensors[k].name != name
  {
    if sensors == [] then -1
    else if sensors[0].name == name then 0
    else
      var i := SensorAt(sensors[1..], name);
      assert forall k :: 0 < k < |sensors| ==> sensors[k] == sensors[1..][k - 1];
      if i < 0 then -1 else i + 1
  }

  function DropSensor(sensors: seq<Sensor>, name: string): seq<Sensor> {
    var i := SensorAt(sensors, name);
    if i < 0 then sensors else Drop(sensors, i)
  }

  function IdsOf(names: set<string>): set<NodeId> {
    set n | n in names :: Named(n)
  }

  /** The nodes the server loses: the one the map entry stands for, and those it takes along. */
  function Lost(slots: seq<Slot>, name: string, gone: set<string>): set<string> {
    var i := MapFind(slots, name);
    if i < 0 || slots[i].id == Objects then {} else gone + {slots[i].id.name}
  }

  /** The node leaves the server, with whatever the server takes along, and the map. */
  function Unhooked(s: State, name: string, gone: set<string>): State {
    var lost := Lost(s.slots, name, gone);
    s.(server := s.server - lost, slots := MapRemove(s.slots, name),
       sim := s.sim.(served := s.sim.served - IdsOf(lost)))
  }

  /** Then it leaves the sensor array and the configuration, which is saved. */
  function Without(s: State, name: string, gone: set<string>): State
    requires 0 <= Find(s.nodes, name)
  {
    var t := Unhooked(s, name, gone);
    Saved(t.(sim := t.sim.(sensors := DropSensor(t.sim.sensors, name)), nodes := Drop(s.nodes, Find(s.nodes, name))))
  }

  function Delete(s: State, name: string, gone: set<string>): State {
    if DeleteStatus(s, name) == Good then Without(s, name, gone) else s
  }

  /** Read the file, seed and write the defaults where there is none, and build. */
  function Startup(file: File, unwilling: set<string>): Option<State> {
    match Load(file)
    case None => None
    case Some(cfg) =>
      var disk := if file.Absent? then Tree(ToJson(Defaults())) else file;
      BuildAll(Blank(cfg, disk), SortByDepth(cfg.nodes), unwilling)
  }
}

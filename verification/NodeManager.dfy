/** The node manager as the source keeps it: fixed arrays for the map and the configuration, a
    growing array of sensors, and updates in place.  Each method is proved to take the state to
    the value that AddressSpace and Simulation give for it.  The fields `server`, `served` and
    `disk` stand for the OPC UA server and the file system. */
module NodeManagers {
  import opened Wrappers
  import opened ServerConfig
  import opened NodeTree
  import opened Simulation
  import opened AddressSpace

  function ServeWrites(served: map<NodeId, bool>, writes: seq<(NodeId, bool)>): map<NodeId, bool> {
    if writes == [] then served
    else
      var last := writes[|writes| - 1];
      Serve(ServeWrites(served, writes[..|writes| - 1]), last.0, last.1)
  }

  /** The sensors after the first i turns of a tick's loop. */
  function Toggled(all: seq<Sensor>, i: nat): (r: seq<Sensor>)
    requires i <= |all|
    ensures |r| == |all|
  {
    StepSensors(all[..i], true, Event.Tick) + all[i..]
  }

  lemma ToggledNext(all: seq<Sensor>, i: nat)
    requires i < |all|
    ensures Toggled(all, i)[i] == all[i]
    ensures Toggled(all, i + 1) == Toggled(all, i)[i := SensorStep(all[i], true, Event.Tick)]
  {
  }

  /** The two arrays hold these writes. */
  predicate Collected(writes: seq<(NodeId, bool)>, ids: seq<NodeId>, values: seq<bool>) {
    |writes| <= |ids| && |writes| <= |values| && forall k :: 0 <= k < |writes| ==> writes[k] == (ids[k], values[k])
  }

  lemma {:induction false} WritesServeTick(served: map<NodeId, bool>, sensors: seq<Sensor>)
    ensures ServeWrites(served, Writes(sensors)) == ServeTick(served, sensors)
  {
    if sensors != [] {
      var init, last := sensors[..|sensors| - 1], sensors[|sensors| - 1];
      WritesServeTick(served, init);
      if !last.overridden {
        assert (Writes(init) + [(last.id, !last.value)])[..|Writes(init)|] == Writes(init);
      } else {
        assert Writes(sensors) == Writes(init);
      }
    }
  }

  class NodeManager {
    const slots: array<Slot>
    const nodes: array<NodeDef>
    var nodeCount: nat
    var uri: string
    var sensors: array<Sensor>
    var sensorCount: nat
    var simulationEnabled: bool
    var simulationNode: Option<NodeId>
    var server: map<string, NodeId>
    var served: map<NodeId, bool>
    var disk: File

    ghost predicate Valid()
      reads this
    {
      slots.Length == MAP_MAX && nodes.Length == MAX_NODES && nodeCount <= MAX_NODES && sensorCount <= sensors.Length
    }

    ghost function Config(): seq<NodeDef>
      requires Valid()
      reads this, nodes
    {
      nodes[..nodeCount]
    }

    ghost function Simulated(): Sim
      requires Valid()
      reads this, sensors
    {
      Sim(simulationEnabled, simulationNode, sensors[..sensorCount], served)
    }

    ghost function View(): State
      requires Valid()
      reads this, slots, nodes, sensors
    {
      State(uri, Config(), slots[..], Simulated(), server, disk)
    }

    constructor (cfg: ServerConfig.Config, file: File)
      requires |cfg.nodes| <= MAX_NODES
      ensures Valid() && fresh(slots) && fresh(nodes) && fresh(sensors)
      ensures View() == Blank(cfg, file)
    {
      slots := new Slot[MAP_MAX](_ => Free);
      nodes := new NodeDef[MAX_NODES](i requires 0 <= i < MAX_NODES =>
        if i < |cfg.nodes| then cfg.nodes[i] else NodeDef("", "", "", "", Boolean, false, ""));
      nodeCount := |cfg.nodes|;
      uri := cfg.namespaceUri;
      sensors := new Sensor[0];
      sensorCount := 0;
      simulationEnabled, simulationNode := true, None;
      server, served, disk := map[], map[], file;
      new;
      assert nodes[..nodeCount] == cfg.nodes;
      assert slots[..] == seq(MAP_MAX, _ => Free);
    }

    // ---------- the browse map ----------

    method FindSlot(name: string) returns (i: int)
      requires Valid()
      ensures i == MapFind(slots[..], name)
    {
      i := 0;
      while i < slots.Length
        invariant 0 <= i <= slots.Length
        invariant forall k :: 0 <= k < i ==> !(slots[k].Used? && slots[k].name == name)
      {
        if slots[i].Used? && slots[i].name == name {
          return;
        }
        i := i + 1;
      }
      return -1;
    }

    method AddSlot(name: string, id: NodeId)
      requires Valid()
      modifies slots
      ensures slots[..] == MapAdd(old(slots[..]), name, id)
    {
      var i := 0;
      while i < slots.Length
        invariant 0 <= i <= slots.Length
        invariant forall k :: 0 <= k < i ==> slots[k].Used?
        invariant slots[..] == old(slots[..])
      {
        if slots[i].Free? {
          assert FirstFree(slots[..]) == i;
          slots[i] := Used(name, id);
          return;
        }
        i := i + 1;
      }
      assert FirstFree(slots[..]) < 0;
    }

    method RemoveSlot(name: string)
      requires Valid()
      modifies slots
      ensures slots[..] == MapRemove(old(slots[..]), name)
    {
      var i := FindSlot(name);
      if 0 <= i {
        slots[i] := Free;
      }
    }

    method ParentNode(parent: string) returns (id: NodeId)
      requires Valid()
      ensures id == ResolveParent(slots[..], parent)
    {
      if parent == "" {
        return Objects;
      }
      var i := FindSlot(parent);
      if 0 <= i {
        return slots[i].id;
      }
      return Objects;
    }

    // ---------- creating nodes ----------

    /** The server's own answer to an added node. */
    method ServerAdds(name: string, parent: NodeId, willing: bool) returns (good: bool)
      modifies `server
      ensures good == Takes(old(server), name, parent, willing)
      ensures server == if good then old(server)[name := parent] else old(server)
    {
      good := willing && name !in server && (parent == Objects || parent.name in server);
      if good {
        server := server[name := parent];
      }
    }

    method AddSensor(name: string, id: NodeId)
      requires Valid()
      modifies `sensors, `sensorCount, sensors
      ensures Valid() && (sensors == old(sensors) || fresh(sensors))
      ensures sensors[..sensorCount] == old(sensors[..sensorCount]) + [Sensor(id, name, false, false)]
    {
      if sensorCount >= sensors.Length {
        var cap := if sensors.Length > 0 then sensors.Length * 2 else 8;
        var grown := new Sensor[cap](i requires 0 <= i < cap reads this, sensors =>
          if i < sensors.Length then sensors[i] else Sensor(Objects, "", false, false));
        assert grown[..sensorCount] == sensors[..sensorCount];
        sensors := grown;
      }
      sensors[sensorCount] := Sensor(id, name, false, false);
      sensorCount := sensorCount + 1;
    }

    method CreateFolder(def: NodeDef, willing: bool) returns (good: bool)
      requires Valid() && def.kind == FOLDER
      modifies `server, slots
      ensures Valid() && good == CanCreate(old(View()), def, willing)
      ensures View() == if good then With(old(View()), def) else old(View())
    {
      var parent := ParentNode(def.parentName);
      good := ServerAdds(def.browseName, parent, willing);
      if good {
        AddSlot(def.browseName, Named(def.browseName));
      }
    }

    method CreateVariable(def: NodeDef, willing: bool) returns (good: bool)
      requires Valid() && def.kind == VARIABLE
      modifies `server, `served, `simulationNode, `simulationEnabled, `sensors, `sensorCount, slots, sensors
      ensures Valid() && (sensors == old(sensors) || fresh(sensors))
      ensures good == CanCreate(old(View()), def, willing)
      ensures View() == if good then With(old(View()), def) else old(View())
    {
      var id := Named(def.browseName);
      var parent := ParentNode(def.parentName);
      good := ServerAdds(def.browseName, parent, willing);
      if !good {
        return;
      }
      if def.dataType == Boolean {
        served := served[id := false];
      }
      AddSlot(def.browseName, id);
      assert sensors[..sensorCount] == old(sensors[..sensorCount]) && Config() == old(Config());
      if def.role != "" && def.role == ROLE_SIMULATION {
        simulationNode := Some(id);
        simulationEnabled := true;
      } else if def.dataType == Boolean && def.simulation {
        AddSensor(def.browseName, id);
      }
    }

    /** Dispatch on the kind; an unknown one is passed over. */
    method Create(def: NodeDef, willing: bool) returns (good: bool)
      requires Valid()
      modifies `server, `served, `simulationNode, `simulationEnabled, `sensors, `sensorCount, slots, sensors
      ensures Valid() && (sensors == old(sensors) || fresh(sensors))
      ensures good == (KnownKind(def) ==> CanCreate(old(View()), def, willing))
      ensures View() == if KnownKind(def) && good then With(old(View()), def) else old(View())
    {
      good := true;
      if def.kind == FOLDER {
        good := CreateFolder(def, willing);
      } else if def.kind == VARIABLE {
        good := CreateVariable(def, willing);
      }
    }

    /** From a build of the first i entries in t, one more entry leads to u or is refused. */
    static lemma BuildNext(s: State, defs: seq<NodeDef>, i: nat, unwilling: set<string>, t: State, u: State, good: bool)
      requires i < |defs| && BuildAll(s, defs[..i], unwilling) == Some(t)
      requires good == (KnownKind(defs[i]) ==> CanCreate(t, defs[i], defs[i].browseName !in unwilling))
      requires u == if KnownKind(defs[i]) && good then With(t, defs[i]) else t
      ensures good ==> BuildAll(s, defs[..i + 1], unwilling) == Some(u)
      ensures !good ==> BuildAll(s, defs, unwilling) == None
    {
      assert defs[..i + 1][..i] == defs[..i] && defs[..i + 1][i] == defs[i];
      if !good {
        RefusalEnds(s, defs, i + 1, unwilling);
      }
    }

    /** Create entry after entry, up to the first refusal. */
    method CreateAll(defs: seq<NodeDef>, unwilling: set<string>) returns (good: bool)
      requires Valid()
      modifies `server, `served, `simulationNode, `simulationEnabled, `sensors, `sensorCount, slots, sensors
      ensures Valid() && (sensors == old(sensors) || fresh(sensors))
      ensures good == BuildAll(old(View()), defs, unwilling).Some?
      ensures good ==> BuildAll(old(View()), defs, unwilling) == Some(View())
    {
      ghost var start, now := View(), View();
      var i := 0;
      while i < |defs|
        invariant 0 <= i <= |defs| && Valid() && View() == now
        invariant sensors == old(sensors) || fresh(sensors)
        invariant BuildAll(start, defs[..i], unwilling) == Some(now)
      {
        var created := Create(defs[i], defs[i].browseName !in unwilling);
        BuildNext(start, defs, i, unwilling, now, View(), created);
        if !created {
          return false;
        }
        now := View();
        i := i + 1;
      }
      assert defs[..i] == defs;
      return true;
    }

    /** Sort a copy of the configuration and create it. */
    method Build(unwilling: set<string>) returns (good: bool)
      requires Valid()
      modifies `server, `served, `simulationNode, `simulationEnabled, `sensors, `sensorCount, slots, sensors
      ensures Valid() && (sensors == old(sensors) || fresh(sensors))
      ensures good == BuildAll(old(View()), SortByDepth(old(Config())), unwilling).Some?
      ensures good ==> BuildAll(old(View()), SortByDepth(old(Config())), unwilling) == Some(View())
    {
      var sorted := new NodeDef[MAX_NODES](_ => NodeDef("", "", "", "", Boolean, false, ""));
      SortNodesByDepth(nodes[..nodeCount], sorted);
      good := CreateAll(sorted[..nodeCount], unwilling);
    }

    static lemma {:induction false} RefusalEnds(s: State, defs: seq<NodeDef>, i: nat, unwilling: set<string>)
      requires i <= |defs| && BuildAll(s, defs[..i], unwilling).None?
      ensures BuildAll(s, defs, unwilling).None?
      decreases |defs|
    {
      if i < |defs| {
        assert defs[..|defs| - 1][..i] == defs[..i];
        RefusalEnds(s, defs[..|defs| - 1], i, unwilling);
      } else {
        assert defs[..i] == defs;
      }
    }

    // ---------- edits ----------

    method Save()
      requires Valid()
      modifies `disk
      ensures Valid() && View() == Saved(old(View()))
    {
      disk := Tree(ToJson(ServerConfig.Config(uri, nodes[..nodeCount])));
    }

    method Record(def: NodeDef)
      requires Valid()
      modifies `disk, `nodeCount, nodes
      ensures Valid()
      ensures View() == if |old(Config())| < MAX_NODES
                        then Saved(old(View()).(nodes := old(Config()) + [def]))
                        else old(View())
    {
      if nodeCount < MAX_NODES {
        nodes[nodeCount] := def;
        nodeCount := nodeCount + 1;
        assert nodes[..nodeCount] == old(Config()) + [def];
        Save();
      }
    }

    method AddFolder(parent: string, name: string, display: string, willing: bool) returns (status: Status)
      requires Valid()
      modifies this, slots, nodes
      ensures Valid() && sensors == old(sensors)
      ensures var r := FolderRequest(parent, name, display);
        if Precheck(old(Config()), r) != Good then status == Precheck(old(Config()), r) && View() == old(View())
        else status == CommitStatus(old(View()), DefOf(r), willing) && View() == Commit(old(View()), DefOf(r), willing)
    {
      var ok := ValidateBrowseName(name);
      if !ok {
        return BadInvalidArgument;
      }
      var idx := FindNodeIndex(nodes[..nodeCount], name);
      if 0 <= idx {
        return BadNodeIdExists;
      }
      var def := NodeDef(FOLDER, Clip(name, NAME_MAX), Clip(display, DISPLAY_MAX), Clip(parent, NAME_MAX),
                         Boolean, false, "");
      var good := CreateFolder(def, willing);
      if good {
        Record(def);
      }
      status := if good then Good else Refused;
    }

    method AddVariable(parent: string, name: string, display: string, dt: DataType, simulation: bool, willing: bool)
      returns (status: Status)
      requires Valid()
      modifies this, slots, nodes, sensors
      ensures Valid() && (sensors == old(sensors) || fresh(sensors))
      ensures var r := VariableRequest(parent, name, display, dt, simulation);
        if Precheck(old(Config()), r) != Good then status == Precheck(old(Config()), r) && View() == old(View())
        else status == CommitStatus(old(View()), DefOf(r), willing) && View() == Commit(old(View()), DefOf(r), willing)
    {
      var ok := ValidateBrowseName(name);
      if !ok {
        return BadInvalidArgument;
      }
      var idx := FindNodeIndex(nodes[..nodeCount], name);
      if 0 <= idx {
        return BadNodeIdExists;
      }
      if simulation && dt != Boolean {
        return BadInvalidArgument;
      }
      var def := NodeDef(VARIABLE, Clip(name, NAME_MAX), Clip(display, DISPLAY_MAX), Clip(parent, NAME_MAX),
                         dt, simulation, "");
      var good := CreateVariable(def, willing);
      if good {
        Record(def);
      }
      status := if good then Good else Refused;
    }

    method HasChildrenInConfig(name: string) returns (has: bool)
      requires Valid()
      ensures has == HasChildren(Config(), name)
    {
      var i := 0;
      while i < nodeCount
        invariant 0 <= i <= nodeCount
        invariant forall k :: 0 <= k < i ==> nodes[k].parentName != name
      {
        if nodes[i].parentName == name {
          assert Config()[i].parentName == name;
          return true;
        }
        i := i + 1;
      }
      return false;
    }

    /** The server forgets a node, and with it the nodes it takes along. */
    method ServerDeletes(id: NodeId, gone: set<string>)
      modifies `server, `served
      ensures id == Objects ==> server == old(server) && served == old(served)
      ensures id != Objects
        ==> server == old(server) - (gone + {id.name}) && served == old(served) - IdsOf(gone + {id.name})
    {
      if id != Objects {
        server := server - (gone + {id.name});
        served := served - (set n | n in gone + {id.name} :: Named(n));
      }
    }

    /** Close the gap of one sensor; the rest keeps its order. */
    method CloseGap(i: nat)
      requires Valid() && i < sensorCount
      modifies `sensorCount, sensors
      ensures Valid() && sensorCount == old(sensorCount) - 1
      ensures sensors[..sensorCount] == Drop(old(sensors[..sensorCount]), i)
    {
      ghost var all := sensors[..sensorCount];
      forall k | i <= k < sensorCount - 1 {
        sensors[k] := sensors[k + 1];
      }
      sensorCount := sensorCount - 1;
      assert sensors[..sensorCount] == Drop(all, i);
    }

    /** Close the gap left by the first sensor of that name. */
    method RemoveSensor(name: string)
      requires Valid()
      modifies `sensorCount, sensors
      ensures Valid() && View()
        == old(View()).(sim := old(Simulated()).(sensors := DropSensor(old(sensors[..sensorCount]), name)))
    {
      ghost var all := sensors[..sensorCount];
      var i := 0;
      while i < sensorCount
        invariant 0 <= i <= sensorCount == old(sensorCount) && sensors[..sensorCount] == all
        invariant forall k :: 0 <= k < i ==> sensors[k].name != name
      {
        if sensors[i].name == name {
          assert all[i] == sensors[i] && SensorAt(all, name) == i;
          CloseGap(i);
          return;
        }
        i := i + 1;
      }
      assert SensorAt(all, name) < 0;
    }

    method RemoveNode(idx: nat)
      requires Valid() && idx < nodeCount
      modifies `nodeCount, nodes
      ensures Valid() && View() == old(View()).(nodes := Drop(old(Config()), idx))
    {
      ghost var all := nodes[..nodeCount];
      forall k | idx <= k < nodeCount - 1 {
        nodes[k] := nodes[k + 1];
      }
      nodeCount := nodeCount - 1;
      assert nodes[..nodeCount] == Drop(all, idx);
    }

    /** Take a node off the server and out of the map, if the map knows it. */
    method Unhook(name: string, gone: set<string>)
      requires Valid()
      modifies `server, `served, slots
      ensures Valid() && View() == Unhooked(old(View()), name, gone)
    {
      var e := FindSlot(name);
      if 0 <= e {
        ServerDeletes(slots[e].id, gone);
        RemoveSlot(name);
      }
    }

    /** The locked work of a delete that goes through. */
    method RemoveEverywhere(name: string, idx: nat, gone: set<string>)
      requires Valid() && idx == Find(Config(), name)
      modifies this, slots, nodes, sensors
      ensures Valid() && sensors == old(sensors)
      ensures View() == Without(old(View()), name, gone)
    {
      Unhook(name, gone);
      RemoveSensor(name);
      RemoveNode(idx);
      Save();
    }

    method DeleteNode(name: string, gone: set<string>) returns (status: Status)
      requires Valid()
      modifies this, slots, nodes, sensors
      ensures Valid() && sensors == old(sensors)
      ensures status == DeleteStatus(old(View()), name)
      ensures View() == Delete(old(View()), name, gone)
    {
      var idx := FindNodeIndex(nodes[..nodeCount], name);
      if idx < 0 {
        return BadNodeIdUnknown;
      }
      if nodes[idx].role != "" && nodes[idx].role == ROLE_SIMULATION {
        return BadUserAccessDenied;
      }
      var has := HasChildrenInConfig(name);
      if has {
        return BadNotImplemented;
      }
      RemoveEverywhere(name, idx, gone);
      return Good;
    }

    // ---------- simulation ----------

    /** Write the collected values, one after the other. */
    method ServeAll(ghost writes: seq<(NodeId, bool)>, ids: array<NodeId>, values: array<bool>, count: nat)
      requires count == |writes| && Collected(writes, ids[..], values[..])
      modifies `served
      ensures served == ServeWrites(old(served), writes)
    {
      var i := 0;
      while i < count
        invariant 0 <= i <= count && served == ServeWrites(old(served), writes[..i])
      {
        assert writes[..i + 1][..i] == writes[..i];
        served := Serve(served, ids[i], values[i]);
        i := i + 1;
      }
      assert writes[..i] == writes;
    }

    /** Toggle under the lock and collect the writes in two arrays, then write them after it. */
    method Tick()
      requires Valid() && Buffered(Simulated(), Event.Tick)
      modifies `served, sensors
      ensures Valid() && Simulated() == Step(old(Simulated()), Event.Tick)
    {
      if !simulationEnabled {
        assert StepSensors(sensors[..sensorCount], false, Event.Tick) == sensors[..sensorCount];
        return;
      }
      ghost var all := sensors[..sensorCount];
      ghost var served0 := served;
      var writeIds, writeValues, writeCount := Toggle();
      ServeAll(Writes(all), writeIds, writeValues, writeCount);
      WritesServeTick(served0, all);
    }

    /** One turn of the tick's loop. */
    method ToggleOne(i: nat, ghost writes: seq<(NodeId, bool)>, ids: array<NodeId>, values: array<bool>, count: nat)
        returns (next: nat)
      requires Valid() && i < sensorCount && Collected(writes, ids[..], values[..]) && count == |writes|
      requires count + |WriteOf(sensors[i])| <= ids.Length && count + |WriteOf(sensors[i])| <= values.Length
      modifies sensors, ids, values
      ensures Valid()
      ensures sensors[..sensorCount] == old(sensors[..sensorCount])[i := SensorStep(old(sensors[i]), true, Event.Tick)]
      ensures next == count + |WriteOf(old(sensors[i]))|
      ensures Collected(writes + WriteOf(old(sensors[i])), ids[..], values[..])
    {
      next := count;
      if !sensors[i].overridden {
        var newValue := if sensors[i].value == false then true else false;
        sensors[i] := sensors[i].(value := newValue);
        ids[count] := sensors[i].id;
        values[count] := newValue;
        next := count + 1;
      }
    }

    /** The locked part of a tick. */
    method Toggle() returns (ids: array<NodeId>, values: array<bool>, count: nat)
      requires Valid() && simulationEnabled && |Writes(sensors[..sensorCount])| <= MAX_NODES
      modifies sensors
      ensures Valid() && sensors[..sensorCount] == StepSensors(old(sensors[..sensorCount]), true, Event.Tick)
      ensures fresh(ids) && fresh(values) && ids.Length == values.Length == MAX_NODES
      ensures count == |Writes(old(sensors[..sensorCount]))|
      ensures Collected(Writes(old(sensors[..sensorCount])), ids[..], values[..])
    {
      ghost var all, writes := sensors[..sensorCount], [];
      ids, values, count := new NodeId[MAX_NODES], new bool[MAX_NODES], 0;
      var i := 0;
      while i < sensorCount
        invariant 0 <= i <= sensorCount == |all| && sensors[..sensorCount] == Toggled(all, i)
        invariant writes == Writes(all[..i]) && count == |writes|
        invariant Collected(writes, ids[..], values[..])
      {
        WritesGrow(all, i);
        ToggledNext(all, i);
        assert sensors[i] == sensors[..sensorCount][i];
        count := ToggleOne(i, writes, ids, values, count);
        writes := writes + WriteOf(all[i]);
        i := i + 1;
      }
      assert all[..i] == all;
    }

    /** The loop both enable paths run under the lock: switch each sensor and collect its node. */
    method SwitchSensors(on: bool) returns (ids: array<NodeId>)
      requires Valid() && sensorCount <= MAX_NODES
      modifies sensors
      ensures Valid() && sensors[..sensorCount]
        == StepSensors(old(sensors[..sensorCount]), simulationEnabled, SetEnabled(on))
      ensures fresh(ids) && ids.Length == MAX_NODES
      ensures forall k :: 0 <= k < sensorCount ==> ids[k] == old(sensors[k]).id
    {
      ghost var all := sensors[..sensorCount];
      ids := new NodeId[MAX_NODES];
      var i := 0;
      while i < sensorCount
        invariant 0 <= i <= sensorCount
        invariant forall k :: 0 <= k < i ==> sensors[k] == Switched(all[k], on)
        invariant forall k :: i <= k < sensorCount ==> sensors[k] == all[k]
        invariant forall k :: 0 <= k < i ==> ids[k] == all[k].id
      {
        if !on {
          sensors[i] := sensors[i].(value := false);
          sensors[i] := sensors[i].(overridden := false);
        } else {
          sensors[i] := sensors[i].(overridden := false);
        }
        ids[i] := sensors[i].id;
        i := i + 1;
      }
      assert sensors[..sensorCount] == StepSensors(all, simulationEnabled, SetEnabled(on));
    }

    /** Write false to the collected nodes. */
    method ServeAllFalse(ghost all: seq<Sensor>, ids: array<NodeId>, count: nat)
      requires count == |all| <= ids.Length && forall k :: 0 <= k < count ==> ids[k] == all[k].id
      modifies `served
      ensures served == ServeFalse(old(served), all)
    {
      var i := 0;
      while i < count
        invariant 0 <= i <= count && served == ServeFalse(old(served), all[..i])
      {
        assert all[..i + 1][..i] == all[..i];
        served := Serve(served, ids[i], false);
        i := i + 1;
      }
      assert all[..i] == all;
    }

    /** The HTTP path: switch under the lock, then write the flag's node and, on disable, the sensors. */
    method SetSimulationEnabled(on: bool)
      requires Valid() && Buffered(Simulated(), SetEnabled(on))
      modifies `simulationEnabled, `served, sensors
      ensures Valid() && Simulated() == Step(old(Simulated()), SetEnabled(on))
    {
      ghost var before := Simulated();
      var sensorIds := SwitchSensors(on);
      assert sensors[..sensorCount] == StepSensors(before.sensors, before.enabled, SetEnabled(on));
      simulationEnabled := on;
      if simulationNode.Some? {
        served := Serve(served, simulationNode.value, on);
      }
      if !on {
        ServeAllFalse(before.sensors, sensorIds, sensorCount);
      }
    }

    /** A client writes the flag's node: the server stores it and runs the callback. */
    method ClientWritesEnabled(data: Written)
      requires Valid() && Buffered(Simulated(), WriteEnabled(data))
      modifies `simulationEnabled, `served, sensors
      ensures Valid() && Simulated() == Step(old(Simulated()), WriteEnabled(data))
    {
      ghost var before := Simulated();
      if data.Ignored? {
        assert StepSensors(before.sensors, before.enabled, WriteEnabled(data)) == before.sensors;
        return;
      }
      if simulationNode.Some? {
        served := Serve(served, simulationNode.value, data.b);
      }
      var sensorIds := SwitchSensors(data.b);
      assert sensors[..sensorCount] == StepSensors(before.sensors, before.enabled, WriteEnabled(data));
      simulationEnabled := data.b;
      if !data.b {
        ServeAllFalse(before.sensors, sensorIds, sensorCount);
      }
    }

    /** A client writes a sensor's node; the sensor is addressed by its name. */
    method ClientWritesSensor(name: string, data: Written)
      requires Valid() && forall i, j :: 0 <= i < j < sensorCount ==> sensors[i].name != sensors[j].name
      modifies `served, sensors
      ensures Valid() && Simulated() == Step(old(Simulated()), WriteSensor(name, data))
    {
      ghost var all := sensors[..sensorCount];
      if data.Bool? {
        served := Serve(served, Named(name), data.b);
        var i := 0;
        while i < sensorCount && sensors[i].name != name
          invariant 0 <= i <= sensorCount && sensors[..sensorCount] == all
          invariant forall k :: 0 <= k < i ==> sensors[k].name != name
        {
          i := i + 1;
        }
        if i < sensorCount {
          sensors[i] := sensors[i].(value := data.b);
          sensors[i] := sensors[i].(overridden := true);
        }
      }
      assert sensors[..sensorCount] == StepSensors(all, simulationEnabled, WriteSensor(name, data));
    }

    method ResetOverrides()
      requires Valid()
      modifies sensors
      ensures Valid() && Simulated() == Step(old(Simulated()), Event.ResetOverrides)
    {
      ghost var all := sensors[..sensorCount];
      var i := 0;
      while i < sensorCount
        invariant 0 <= i <= sensorCount
        invariant forall k :: 0 <= k < i ==> sensors[k] == all[k].(overridden := false)
        invariant forall k :: i <= k < sensorCount ==> sensors[k] == all[k]
      {
        sensors[i] := sensors[i].(overridden := false);
        i := i + 1;
      }
      assert sensors[..sensorCount] == StepSensors(all, simulationEnabled, Event.ResetOverrides);
    }
  }
}

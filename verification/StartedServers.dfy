/** What a server that has just started serves and simulates, for any file and any refusals. */
module StartedServers {
  import opened Wrappers
  import opened ServerConfig
  import opened NodeTree
  import opened Simulation
  import opened AddressSpace
  import opened EditRuns
  import opened Agreement
  import opened Restart

  // ---------- while building ----------

  /** Simulation is on, and no sensor has toggled or been written. */
  ghost predicate Untouched(sim: Sim) {
    sim.enabled
    && forall i :: 0 <= i < |sim.sensors| ==>
      sim.sensors[i] == Sensor(Named(sim.sensors[i].name), sim.sensors[i].name, false, false)
  }

  /** Exactly the nodes of Boolean variables serve a value, and it is false. */
  ghost predicate ServesFalse(served: map<NodeId, bool>, made: seq<NodeDef>) {
    forall id :: (id in served <==> exists d :: d in made && id == Named(d.browseName) && IsBoolean(d))
                 && (id in served ==> !served[id])
  }

  predicate IsBoolean(d: NodeDef) {
    d.kind == "variable" && d.dataType == Boolean
  }

  lemma WithServesFalse(sim: Sim, made: seq<NodeDef>, d: NodeDef)
    requires ServesFalse(sim.served, made)
    ensures ServesFalse(SimWith(sim, d).served, made + [d])
  {
    var later := SimWith(sim, d).served;
    assert forall e :: e in made + [d] <==> e in made || e == d;
    forall id
      ensures id in later <==> exists e :: e in made + [d] && id == Named(e.browseName) && IsBoolean(e)
      ensures id in later ==> !later[id]
    {
      if id in sim.served {
        var e :| e in made && id == Named(e.browseName) && IsBoolean(e);
        assert e in made + [d];
      }
      if id == Named(d.browseName) && IsBoolean(d) {
        assert d in made + [d];
      }
    }
  }

  lemma WithUntouched(sim: Sim, d: NodeDef)
    requires Untouched(sim)
    ensures Untouched(SimWith(sim, d))
  {
  }

  lemma {:induction false} BuiltUntouched(cfg: Config, disk: File, defs: seq<NodeDef>, unwilling: set<string>)
    requires BuildAll(Blank(cfg, disk), defs, unwilling).Some? && forall d :: d in defs ==> KnownKind(d)
    ensures Untouched(BuildAll(Blank(cfg, disk), defs, unwilling).value.sim)
    ensures ServesFalse(BuildAll(Blank(cfg, disk), defs, unwilling).value.sim.served, defs)
  {
    if defs != [] {
      var init, last := defs[..|defs| - 1], defs[|defs| - 1];
      assert last in defs && defs == init + [last];
      BuiltUntouched(cfg, disk, init, unwilling);
      var before := BuildAll(Blank(cfg, disk), init, unwilling).value;
      WithUntouched(before.sim, last);
      WithServesFalse(before.sim, init, last);
    }
  }

  lemma SortedServesFalse(served: map<NodeId, bool>, a: seq<NodeDef>, b: seq<NodeDef>)
    requires ServesFalse(served, a) && forall d :: d in a <==> d in b
    ensures ServesFalse(served, b)
  {
  }

  // ---------- when it has started ----------

  /** The variables that are simulated, by their fields. */
  ghost function SensorsOf(nodes: seq<NodeDef>): set<string> {
    set d | d in nodes && d.kind == "variable" && d.dataType == Boolean && d.simulation && d.role != "simulationEnabled"
      :: d.browseName
  }

  lemma StartsUntouched(file: File, unwilling: set<string>)
    requires Load(file).Some? && Proper(Load(file).value.nodes) && Startup(file, unwilling).Some?
    ensures var s := Startup(file, unwilling).value;
      InStep(s) && s.nodes == Load(file).value.nodes && Untouched(s.sim) && ServesFalse(s.sim.served, s.nodes)
  {
    var cfg := Load(file).value;
    var disk := if file.Absent? then Tree(ToJson(Defaults())) else file;
    StartupInStep(file, unwilling, cfg, disk);
    SortedIsProper(cfg.nodes);
    SortIsSorted(cfg.nodes);
    SameElements(SortByDepth(cfg.nodes), cfg.nodes);
    BuiltUntouched(cfg, disk, SortByDepth(cfg.nodes), unwilling);
    SortedServesFalse(Startup(file, unwilling).value.sim.served, SortByDepth(cfg.nodes), cfg.nodes);
  }

  /** For every file that loads to proper nodes, and any refusals, a server that has started simulates:
      its sensors are exactly the simulated Boolean variables, each false and not overridden, and
      every Boolean variable serves false, the node of the enable flag included, if there is one. */
  lemma StartsSimulating(file: File, unwilling: set<string>)
    requires Load(file).Some? && Proper(Load(file).value.nodes) && Startup(file, unwilling).Some?
    ensures var s := Startup(file, unwilling).value;
      s.sim.enabled && SensorNames(s.sim.sensors) == SensorsOf(s.nodes)
      && (forall i :: 0 <= i < |s.sim.sensors| ==> !s.sim.sensors[i].value && !s.sim.sensors[i].overridden)
      && (forall d :: d in s.nodes && d.kind == "variable" && d.dataType == Boolean ==>
            Named(d.browseName) in s.sim.served && !s.sim.served[Named(d.browseName)])
      && (s.sim.node.Some? <==> exists d :: d in s.nodes && d.kind == "variable" && d.role == "simulationEnabled")
  {
    StartsUntouched(file, unwilling);
    var s := Startup(file, unwilling).value;
    FlagByFields(s);
    EachServesFalse(s.sim.served, s.nodes);
  }

  lemma EachServesFalse(served: map<NodeId, bool>, nodes: seq<NodeDef>)
    requires ServesFalse(served, nodes)
    ensures forall d :: d in nodes && d.kind == "variable" && d.dataType == Boolean ==>
      Named(d.browseName) in served && !served[Named(d.browseName)]
  {
    forall d | d in nodes && d.kind == "variable" && d.dataType == Boolean
      ensures Named(d.browseName) in served && !served[Named(d.browseName)]
    {
      assert IsBoolean(d);
    }
  }

  lemma FlagByFields(s: State)
    requires InStep(s)
    ensures SensorNames(s.sim.sensors) == SensorsOf(s.nodes)
    ensures s.sim.node.Some? <==> exists d :: d in s.nodes && d.kind == "variable" && d.role == "simulationEnabled"
  {
    assert SimulatedNames(s.nodes) == SensorsOf(s.nodes);
    if s.sim.node.Some? {
      var d :| d in s.nodes && IsFlag(d);
      assert d.kind == "variable" && d.role == "simulationEnabled";
    }
    if d :| d in s.nodes && d.kind == "variable" && d.role == "simulationEnabled" {
      assert IsFlag(d);
    }
  }

  lemma TickOfUntouched(sim: Sim)
    requires Untouched(sim) && OwnNodes(sim) && ServesSensors(sim)
    ensures var t := Step(sim, Tick);
      |t.sensors| == |sim.sensors|
      && forall i :: 0 <= i < |t.sensors| ==>
        t.sensors[i].name == sim.sensors[i].name && t.sensors[i].value
        && Named(t.sensors[i].name) in t.served && t.served[Named(t.sensors[i].name)]
  {
    StepServes(sim, Tick);
    var t := Step(sim, Tick);
    forall i | 0 <= i < |t.sensors|
      ensures t.sensors[i].name == sim.sensors[i].name && t.sensors[i].value
      ensures Named(t.sensors[i].name) in t.served && t.served[Named(t.sensors[i].name)]
    {
      assert t.sensors[i] in t.sensors && t.sensors[i] == SensorStep(sim.sensors[i], true, Tick);
    }
  }

  /** After the first tick each sensor is true, and so is what its node serves. */
  lemma FirstTick(file: File, unwilling: set<string>)
    requires Load(file).Some? && Proper(Load(file).value.nodes) && Startup(file, unwilling).Some?
    ensures var s := Startup(file, unwilling).value; var t := Step(s.sim, Tick);
      SensorNames(t.sensors) == SensorsOf(s.nodes)
      && forall i :: 0 <= i < |t.sensors| ==>
        t.sensors[i].value && Named(t.sensors[i].name) in t.served && t.served[Named(t.sensors[i].name)]
  {
    StartsUntouched(file, unwilling);
    var s := Startup(file, unwilling).value;
    FlagByFields(s);
    TickOfUntouched(s.sim);
    SameNames(Step(s.sim, Tick).sensors, s.sim.sensors);
  }

  lemma SameNames(a: seq<Sensor>, b: seq<Sensor>)
    requires |a| == |b| && forall i :: 0 <= i < |a| ==> a[i].name == b[i].name
    ensures SensorNames(a) == SensorNames(b)
  {
    forall i | 0 <= i < |a| ensures a[i] in a && b[i] in b && a[i].name == b[i].name {
    }
  }

  // ---------- without a file ----------

  lemma DefaultParents(nodes: seq<NodeDef>)
    requires nodes == Defaults().nodes
    ensures |nodes| == 7 && nodes[0].browseName == "Sensors" && nodes[0].parentName == ""
    ensures forall i :: 0 < i < 7 ==> nodes[i].parentName == "Sensors"
    ensures Find(nodes, "Sensors") == 0 && "Sensors" in Names(nodes)
  {
    assert nodes[0] in nodes;
  }

  lemma DefaultsAreShallow(nodes: seq<NodeDef>)
    requires nodes == Defaults().nodes
    ensures Shallow(nodes)
  {
    DefaultParents(nodes);
    forall d | d in nodes ensures Climb(nodes, d.parentName, DEPTH_CAP + 1) <= DEPTH_CAP {
      var i :| 0 <= i < |nodes| && nodes[i] == d;
      if i > 0 {
        ClimbOne(nodes, "Sensors", 0, "", DEPTH_CAP + 1);
      }
    }
  }

  lemma DefaultEntries(nodes: seq<NodeDef>)
    requires nodes == Defaults().nodes
    ensures nodes[1].browseName == "Sensor1" && nodes[2].browseName == "Sensor2" && nodes[3].browseName == "Sensor3"
    ensures nodes[4].browseName == "Sensor4" && nodes[5].browseName == "Pi1_InductionSwitch1"
    ensures nodes[6].browseName == "SimulationEnabled"
    ensures forall i :: 0 <= i < 7 ==> (1 <= i <= 4 <==> nodes[i].browseName in SensorsOf([nodes[i]]))
  {
    forall i | 0 <= i < 7 ensures 1 <= i <= 4 <==> nodes[i].browseName in SensorsOf([nodes[i]]) {
      assert nodes[i] in [nodes[i]];
    }
  }

  lemma PlacedDefaults(server: map<string, NodeId>, nodes: seq<NodeDef>)
    requires nodes == Defaults().nodes && PlacedBy(server, nodes, Names(nodes)) && "" !in Names(nodes)
    ensures "Sensors" in server && server["Sensors"] == Objects
    ensures forall i :: 0 < i < 7 ==> nodes[i].browseName in server && server[nodes[i].browseName] == Named("Sensors")
  {
    DefaultParents(nodes);
    assert forall i :: 0 <= i < 7 ==> nodes[i] in nodes;
  }

  lemma DefaultsStart(nodes: seq<NodeDef>)
    requires nodes == Defaults().nodes
    ensures Startup(Absent, {}).Some?
    ensures var s := Startup(Absent, {}).value;
      InStep(s) && s.nodes == nodes && s.uri == "urn:binary-sensors-demo" && Untouched(s.sim)
      && PlacedBy(s.server, nodes, Names(nodes)) && |s.server| == 7
  {
    DefaultsAreProper();
    DefaultsAreShallow(nodes);
    StartupAgrees(Absent, {});
    StartsUntouched(Absent, {});
    PlacedFaithfullyIff(Startup(Absent, {}).value);
    DistinctNames(nodes);
    assert Startup(Absent, {}).value.server.Keys == Names(nodes);
  }

  /** Without a file a server starts with seven nodes in one folder under Objects. */
  lemma DefaultServer()
    ensures Startup(Absent, {}).Some?
    ensures var s := Startup(Absent, {}).value;
      s.uri == "urn:binary-sensors-demo" && |s.server| == 7
      && "Sensors" in s.server && s.server["Sensors"] == Objects
      && "Sensor1" in s.server && s.server["Sensor1"] == Named("Sensors")
      && "Sensor2" in s.server && s.server["Sensor2"] == Named("Sensors")
      && "Sensor3" in s.server && s.server["Sensor3"] == Named("Sensors")
      && "Sensor4" in s.server && s.server["Sensor4"] == Named("Sensors")
      && "Pi1_InductionSwitch1" in s.server && s.server["Pi1_InductionSwitch1"] == Named("Sensors")
      && "SimulationEnabled" in s.server && s.server["SimulationEnabled"] == Named("Sensors")
  {
    var nodes := Defaults().nodes;
    DefaultsStart(nodes);
    PlacedDefaults(Startup(Absent, {}).value.server, nodes);
    DefaultEntries(nodes);
  }

  lemma SensorsByEntry(nodes: seq<NodeDef>)
    ensures forall n :: n in SensorsOf(nodes) <==> exists i :: 0 <= i < |nodes| && n in SensorsOf([nodes[i]])
  {
    forall n ensures n in SensorsOf(nodes) <==> exists i :: 0 <= i < |nodes| && n in SensorsOf([nodes[i]]) {
      if n in SensorsOf(nodes) {
        var d :| d in nodes && n in SensorsOf([d]);
        var i :| 0 <= i < |nodes| && nodes[i] == d;
      }
      if i :| 0 <= i < |nodes| && n in SensorsOf([nodes[i]]) {
        assert nodes[i] in nodes;
      }
    }
  }

  /** Four of them are simulated, and one is the flag's. */
  lemma DefaultSimulation()
    ensures Startup(Absent, {}).Some?
    ensures var s := Startup(Absent, {}).value;
      s.sim.enabled && s.sim.node == Some(Named("SimulationEnabled"))
      && SensorNames(s.sim.sensors) == {"Sensor1", "Sensor2", "Sensor3", "Sensor4"}
  {
    var nodes := Defaults().nodes;
    DefaultsStart(nodes);
    var s := Startup(Absent, {}).value;
    FlagByFields(s);
    DefaultSensors(nodes);
    DefaultFlag(s, nodes);
  }

  lemma DefaultSensors(nodes: seq<NodeDef>)
    requires nodes == Defaults().nodes
    ensures SensorsOf(nodes) == {"Sensor1", "Sensor2", "Sensor3", "Sensor4"}
  {
    DefaultEntries(nodes);
    SensorsByEntry(nodes);
    forall n ensures n in SensorsOf(nodes) <==> n in {"Sensor1", "Sensor2", "Sensor3", "Sensor4"} {
      if i :| 0 <= i < |nodes| && n in SensorsOf([nodes[i]]) {
        assert n == nodes[i].browseName && 1 <= i <= 4;
      }
    }
  }

  lemma DefaultRoles(nodes: seq<NodeDef>)
    requires nodes == Defaults().nodes
    ensures |nodes| == 7 && forall i :: 0 <= i < 6 ==> nodes[i].role == ""
    ensures nodes[6].kind == VARIABLE && nodes[6].role == ROLE_SIMULATION && nodes[6].browseName == "SimulationEnabled"
  {
  }

  lemma OneFlag(s: State, nodes: seq<NodeDef>, n: nat)
    requires InStep(s) && s.nodes == nodes && n < |nodes| && IsFlag(nodes[n])
    requires forall i :: 0 <= i < |nodes| && i != n ==> nodes[i].role == ""
    ensures s.sim.node == Some(Named(nodes[n].browseName))
  {
    assert nodes[n] in nodes;
    var d :| d in nodes && IsFlag(d) && s.sim.node == Some(Named(d.browseName));
    var i :| 0 <= i < |nodes| && nodes[i] == d;
  }

  lemma DefaultFlag(s: State, nodes: seq<NodeDef>)
    requires InStep(s) && s.nodes == nodes == Defaults().nodes
    ensures s.sim.node == Some(Named("SimulationEnabled"))
  {
    DefaultRoles(nodes);
    OneFlag(s, nodes, 6);
  }
}

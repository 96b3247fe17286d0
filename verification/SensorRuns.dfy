/** The arrays of 256 elements in which the simulation collects what to write, over whole runs: below
    capacity they always suffice, and at full capacity exactly while each new sensor finds room. */
module SensorRuns {
  import opened Collections
  import opened Wrappers
  import opened ServerConfig
  import opened NodeTree
  import opened Simulation
  import opened AddressSpace
  import opened EditRuns
  import opened Agreement
  import opened Interleavings
  import opened Restart
  import opened CapacityRuns

  /** The arrays suffice for every event that may come next. */
  ghost predicate AllBuffered(s: State) {
    forall e :: Buffered(s.sim, e)
  }

  /** In every interleaving in which no add meets a full configuration, the arrays suffice. */
  lemma BuffersSuffice(w: World, ops: seq<Op>)
    requires InStep(w.s) && PendingChecked(w) && RunsBelowCapacity(w, ops)
    ensures AllBuffered(RunOps(w, ops).s)
  {
    EveryInterleavingAgrees(w, ops);
    InStepMeans(RunOps(w, ops).s);
    BufferedIff(RunOps(w, ops).s.sim);
  }

  // ---------- at any capacity ----------

  /** The server's answer to the add that the operation commits. */
  predicate WillingAt(op: Op) {
    (op.Add? || op.Finish?) && op.willing
  }

  /** The operation commits an add of a simulated variable that the server takes. */
  predicate TakesSensor(w: World, op: Op) {
    Committed(w, op).Some?
    && var d := DefOf(Committed(w, op).value); CanCreate(w.s, d, WillingAt(op)) && IsSimulated(d)
  }

  lemma NextSensors(w: World, op: Op)
    ensures TakesSensor(w, op) ==> |Next(w, op).s.sim.sensors| == |w.s.sim.sensors| + 1
    ensures !TakesSensor(w, op) ==> |Next(w, op).s.sim.sensors| <= |w.s.sim.sensors|
  {
  }

  /** Whatever the operation, the arrays go on to suffice exactly unless it adds a sensor to 256. */
  lemma NextBufferedIff(w: World, op: Op)
    requires AllBuffered(w.s)
    ensures AllBuffered(Next(w, op).s) <==> (TakesSensor(w, op) ==> |w.s.sim.sensors| < MAX_NODES)
  {
    BufferedIff(w.s.sim);
    BufferedIff(Next(w, op).s.sim);
    NextSensors(w, op);
  }

  /** The arrays suffice after each operation of the run. */
  ghost predicate RunBuffered(w: World, ops: seq<Op>) {
    AllBuffered(RunOps(w, ops).s) && (ops == [] || RunBuffered(w, ops[..|ops| - 1]))
  }

  /** Each sensor that the run adds finds fewer than 256. */
  ghost predicate SensorsFindRoom(w: World, ops: seq<Op>) {
    ops == []
    || (SensorsFindRoom(w, ops[..|ops| - 1])
        && var before := RunOps(w, ops[..|ops| - 1]);
          TakesSensor(before, ops[|ops| - 1]) ==> |before.s.sim.sensors| < MAX_NODES)
  }

  /** In every interleaving, at any capacity and whatever the server answers, the arrays suffice
      throughout exactly when each new sensor finds fewer than 256. */
  lemma {:induction false} RunBufferedIff(w: World, ops: seq<Op>)
    requires AllBuffered(w.s)
    ensures RunBuffered(w, ops) <==> SensorsFindRoom(w, ops)
  {
    if ops != [] {
      RunBufferedIff(w, ops[..|ops| - 1]);
      if RunBuffered(w, ops[..|ops| - 1]) {
        NextBufferedIff(RunOps(w, ops[..|ops| - 1]), ops[|ops| - 1]);
      }
    }
  }

  // ---------- a 257th sensor ----------

  /** A run: the simulation is enabled, and one more simulated variable is added. */
  function OneTooMany(name: string): seq<Op> {
    [Simulate(SetEnabled(true)), Add(VariableRequest("", name, "", Boolean, true), true)]
  }

  lemma EnabledAll(s: State)
    ensures var t := Next(World(s, map[]), Simulate(SetEnabled(true))).s;
      t.sim.enabled && |t.sim.sensors| == |s.sim.sensors| && t.nodes == s.nodes && t.server == s.server
      && forall i :: 0 <= i < |t.sim.sensors| ==> !t.sim.sensors[i].overridden
  {
  }

  lemma OneMoreSensor(s: State, name: string)
    requires ValidName(name) && name !in Names(s.nodes) && name !in s.server
    ensures var t := Next(World(s, map[]), Add(VariableRequest("", name, "", Boolean, true), true)).s;
      t.sim.enabled == s.sim.enabled && t.sim.sensors == s.sim.sensors + [Sensor(Named(name), name, false, false)]
  {
  }

  lemma NoneSuffices(sim: Sim)
    requires sim.enabled && |sim.sensors| > MAX_NODES
    requires forall i :: 0 <= i < |sim.sensors| ==> !sim.sensors[i].overridden
    ensures !Buffered(sim, Tick)
    ensures forall on :: !Buffered(sim, SetEnabled(on)) && !Buffered(sim, WriteEnabled(Bool(on)))
  {
    FewWrites(sim.sensors);
  }

  /** With 256 sensors, one more simulated variable is taken, and neither a tick nor either enable
      path has room for its writes. */
  lemma OneTooManyOverflows(s: State, name: string)
    requires InStep(s) && |s.sim.sensors| == MAX_NODES && ValidName(name) && name !in Names(s.nodes)
    ensures var t := RunOps(World(s, map[]), OneTooMany(name)).s;
      |t.sim.sensors| == MAX_NODES + 1 && !Buffered(t.sim, Tick)
      && forall on :: !Buffered(t.sim, SetEnabled(on)) && !Buffered(t.sim, WriteEnabled(Bool(on)))
  {
    var w, ops := World(s, map[]), OneTooMany(name);
    var enabled := Next(w, ops[0]).s;
    EnabledAll(s);
    OneMoreSensor(enabled, name);
    assert ops == [] + [ops[0]] + [ops[1]];
    RunSnoc(w, [] + [ops[0]], ops[1]);
    RunSnoc(w, [], ops[0]);
    NoneSuffices(RunOps(w, ops).s.sim);
  }

  lemma FlatSensors(s: State)
    requires InStep(s) && s.nodes == FlatNodes(true)
    ensures |s.sim.sensors| == MAX_NODES
  {
    forall d | d in s.nodes ensures IsSimulated(d) {
      var i :| 0 <= i < |s.nodes| && s.nodes[i] == d;
    }
    assert SimulatedNames(s.nodes) == Names(s.nodes);
    DistinctNames(s.nodes);
    SensorCount(s.sim.sensors);
  }

  /** A server started from a file of 256 simulated variables is in such a state. */
  lemma FullServerOverflows(uri: string, name: string)
    requires |uri| < NAMESPACE_MAX && ValidName(name) && |name| != 2
    ensures Startup(FullFile(uri, true), {}).Some?
    ensures var t := RunOps(World(Startup(FullFile(uri, true), {}).value, map[]), OneTooMany(name)).s;
      |t.sim.sensors| == MAX_NODES + 1 && !Buffered(t.sim, Tick) && !Buffered(t.sim, SetEnabled(false))
  {
    FullServerStarts(uri, true);
    var s := Startup(FullFile(uri, true), {}).value;
    FlatSensors(s);
    FlatNamesAreShort(s.nodes, true, name);
    OneTooManyOverflows(s, name);
  }
}

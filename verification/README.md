# Binary sensors server and bridges: a verified model

The repository holds an OPC UA server with configurable nodes and simulated sensors
(`src/node_manager.c`, `src/server_config.c`, `src/http_server.c`) and three bridges that stream
sensor values as MessagePack frames over TCP: a stand-alone C program
(`src/opcua_tcp_bridge.c`), a Qt engine (`src/gui/`) and a Go service (`internal/`). This project
models their stateful and protocol code in Dafny and proves what it promises, for all inputs, runs
and interleavings.

Verify everything with `dafny verify dfyconfig.toml`.

## How it is laid out

| files | part |
|---|---|
| `Wrappers.dfy`, `Collections.dfy` | options, and facts about sequences, sets and maps |
| `ServerConfig.dfy` | node definitions, accepted names, the JSON tree of a saved configuration, defaults |
| `ConfigFiles.dfy` | what any file loads to and a save writes, by the fields of the JSON tree |
| `NodeTree.dfy` | the capped parent walk and the exchange sort keyed on it |
| `Simulation.dfy` | ticks, client writes, enabling and overriding, as a trace of events |
| `AddressSpace.dfy` | the node manager's state as a value: configuration, browse map, sensors, server tree, saved file |
| `NodeManager.dfy` | the node manager as a class over arrays, each method tied to the value functions |
| `EditRuns.dfy`, `Agreement.dfy`, `Interleavings.dfy` | what every run and every interleaving of edits keeps |
| `StartedServers.dfy`, `EditEffects.dfy` | what a started server serves and simulates, and what each edit does, field by field |
| `Restart.dfy`, `RestartLimits.dfy` | exactly when a restart rebuilds the live tree, and runs after which it does not |
| `CapacityRuns.dfy`, `SensorRuns.dfy` | what runs that meet a full configuration can do, and when the simulation's arrays of 256 suffice |
| `BridgeState.dfy` | the Go service's critical sections as a class, with the client list filtered and spliced in place |
| `BridgeProtocol.dfy`, `BridgePaths.dfy` | the service as a transition system, what every interleaving keeps, and runs as paths |
| `BridgeConnections.dfy` | that without a connection no bridge starts and no tick goes on |
| `BridgeStops.dfy`, `BridgeSerial.dfy` | when a stop can return: in every interleaving, and when no call overlaps a start |
| `BridgeLoops.dfy`, `BridgeOverlap.dfy`, `BridgeRuns.dfy` | which starts keep one tick loop and the order of frames, what other starts lead to, and runs that reach that |
| `MsgPack.dfy`, `Frames.dfy`, `FrameWriters.dfy`, `Encoders.dfy`, `WireFormat.dfy` | MessagePack, frames and streams, the three encoders, and the bytes and names written out |
| `Browser.dfy` | recursive discovery |
| `Upload.dfy` | assembly of an upload body over several handler calls |
| `NodeIds.dfy` | node ids as text: the server's printer, the Go and the Qt parser |
| `LegacyBridge.dfy`, `ClientTable.dfy` | the stand-alone bridge's backoff, its updates and its table of 32 clients |

## What it finds

The documentation says that edits "apply immediately and persist across restarts" (`README.md:23`).
Below capacity the exact condition is `Restart.LiveTreeReturnsIff`, and `Restart.EditsPersistIff` for
runs from a started server: a restart rebuilds the live tree exactly when each live node sits under
its parent if the sort creates that first, and under Objects otherwise. `Restart.RestartRebuildsIff`
says the same for any state whose file is current. Nothing is assumed there about depth, cycles or
dangling names. Four things in the code break it or what a caller expects of it:

- An add may take a name that another entry already names as its absent parent. The live tree
  keeps that entry under Objects. An add keeps every node where the configuration says exactly when
  no entry, itself included, claims the new name (`Restart.CommitFaithfulIff`); adds under existing
  parents always do (`RestartLimits.EditsUnderExistingParentsPersist`). Such a tree moves at a restart
  that sorts parents first (`Restart.RestartRebuilds`). It need not move otherwise: two folders that
  name each other come back as they were (`RestartLimits.CycleIsReached`).
- Depths stop at 32, so deeper nodes compare equal and the sort may leave a child before its parent.
  A chain of 34 folders beside one more folder comes back with its last folder under Objects
  (`RestartLimits.DeepChainMoves`, reached by adds in `RestartLimits.DeepChainIsReached`). A build puts
  all nodes where the configuration says exactly when the sort puts parents first
  (`Restart.BuildPlaces`, `Restart.PlacedFaithfullyIff`).
- A configuration with no nodes left is saved, but loaded as the seven default nodes, with the
  default namespace (`ServerConfig.LoadSaved`, `RestartLimits.RestartKeepsNodesIff`).
- With 256 entries an add still creates the node but records nothing. An added node survives a
  restart exactly when there was room to record it (`CapacityRuns.AddPersistsIff`).

A full configuration has three more effects, all reached from a started server:

- A delete goes through although the server node has an unrecorded child
  (`Interleavings.DeleteRemovesLeafIff`, `CapacityRuns.FullServerHidesAChild`).
- If the server then takes along what hangs below the deleted node, it may take a configured node.
  Its name is free on the server and still configured, so an add that was checked earlier configures
  the name twice (`CapacityRuns.NameComesTwice`, `CapacityRuns.FullServerNamesTwice`). Names stay
  unique exactly when deletes take no other configured node along
  (`Interleavings.NamesStayUniqueIff`, `Interleavings.EveryInterleavingHolds`).
- An unrecorded simulated variable still becomes a sensor, so there can be 257 of them, while a tick
  and both enable paths collect what to write in arrays of 256. The arrays suffice throughout a run
  exactly when each new sensor finds fewer than 256 (`SensorRuns.RunBufferedIff`), which is so while no
  add meets a full configuration (`SensorRuns.BuffersSuffice`) and fails in
  `SensorRuns.FullServerOverflows`.

What does hold at any capacity, in every interleaving and whatever the server answers: every entry
keeps a slot of the map, at most four slots stray, and the flag's node stays in the map
(`Interleavings.EveryInterleavingIsTracked`, `Interleavings.FlagStaysInMap`).

Other results where code and expectation differ:

- The node of the enable flag is created serving false while the flag starts true
  (`Simulation.FlagIsServedOnceSet`).
- The tick loop reads its stop channel late, and a stop that comes first leaves it without one. In every
  interleaving, a stop of a bridge that is off can return without another start exactly when every
  tick loop has read its channel or seen the connection lost (`BridgeStops.StopReturnsIff`, which
  also says when it can return after the bridge runs again); once they all have their channels it
  returns in every schedule (`BridgeStops.EveryScheduleReturns`). A stop right after a start is blocked
  (`BridgeRuns.StopTooSoon`), and so is a stop whose own loop has its channel, beside a loop that an
  earlier start launched late (`BridgeRuns.LateLoopIsReached`). Only another connection, start and
  stop free it (`BridgeStops.AnotherStartFrees`).
- The wait group is raised after the lock is released, so a stop in between does not wait, and the
  next start finds the loops of the first. At most one tick loop lives if each start finds no other
  loop, alive or about to be launched (`BridgeLoops.OneTickLoop`), and a start that finds one leads to
  two (`BridgeOverlap.StartAloneIff`). Frames keep their order if each start finds no loop that can
  still send (`BridgeLoops.FramesAreOrdered`), and a start that finds one leads to a client that gets
  a frame before an earlier one (`BridgeOverlap.StartQuietIff`). Both are reached
  (`BridgeRuns.TwoTickLoops`, `BridgeRuns.FramesOutOfOrder`).
- An upload chunk is appended at the first NUL of the buffer, so text after a NUL is dropped unless
  it starts a later chunk (`Upload.BodyIsTextIff`).
- The Qt node-id expression is not tied to the start of the text, so it accepts more than the Go
  one: forms after other text or before a line break, and numbers with a sign or with text around
  them. It refuses numbers of 2^31 and more (`NodeIds.QtAcceptsMoreIff`, `NodeIds.QtAgreesIff`).
- When the namespace or the sensor folder is missing after a reconnect, the stand-alone bridge keeps
  using the node ids it resolved before, for as long as the session lasts
  (`LegacyBridge.StaleIdsAreKeptIff`, reached in `LegacyBridge.StaleIdsAreReached`).
- Recursive discovery keeps no visited set and has no bound on a cycle (`Browser.CycleHasNoBound`).
- `README.md:16-17` describes a `ResetOverrides` variable; in the code a reset is an HTTP request.
  `PROTOCOL.md:43` speaks of `Sensor1` to `Sensor4`; the C bridge sends five sensors. The model follows
  the code.

## Assumptions

- The OPC UA server takes a node only if its id is fresh and its parent exists, and may refuse any
  add. Deleting a node may take others with it only if it has children there
  (`AddressSpace.Takes`, `AddressSpace.MayTakeAlong`).
- Only client writes reach the write callbacks. If the server also ran them for the node manager's
  own writes, a tick would mark its sensors as overridden.
- Saves succeed, memory suffices, and where stated the clock does not go backwards.
- Loaded entries have distinct non-empty names and one of the two known kinds where a lemma asks for
  `Proper`; the loader itself checks neither.

## Model

| member | source | states |
|---|---|---|
| `ServerConfig.ValidateBrowseName` | src/server_config.c:77-91 | true exactly for non-empty names shorter than 64 made of letters, digits and underscores |
| `ConfigFiles.ValidNameIff` | src/server_config.c:77-91 | an accepted name has 1 to 63 characters, each one of the 26 lower-case letters, the 26 upper-case ones, the ten digits and the underscore |
| `ServerConfig.WrittenFields` | src/server_config.c:145-159 | every field of a written entry is found under its key again; data type, simulation and role only when they are written |
| `ServerConfig.ParseWritten` | src/server_config.c:115-159 | parsing a written entry gives the entry back, less the data type of a folder |
| `ConfigFiles.AcceptedIff` | src/server_config.c:115-127 | any item is accepted exactly when its kind, browse name and display name are texts |
| `ConfigFiles.AcceptedTexts` | src/server_config.c:129-138 | the texts of an accepted entry are those of the item up to 15, 63, 127, 63 and 31 characters; a missing parent or role is empty |
| `ConfigFiles.SimulatedIff` | src/server_config.c:138-138 | an entry is simulated exactly when its field is true; any other value gives the same entry as no field |
| `ConfigFiles.NamedType` | src/server_config.c:104-142 | a type field that names Int32, Double or String gives that type |
| `ConfigFiles.OtherTypeIsBoolean` | src/server_config.c:104-142 | any other type field gives the same entry as none, of type Boolean |
| `ConfigFiles.TypeNames` | src/server_config.c:93-112 | the four type names and their types |
| `ServerConfig.LoadSaved` | src/server_config.c:161-256 | loading what was saved gives namespace and entries back, but the defaults for an empty list |
| `ServerConfig.LoadSavedIsIdentity` | src/server_config.c:161-256 | save and load undo each other exactly when there is a node and no folder carries a data type |
| `ServerConfig.LoadedFits` | src/server_config.c:161-221 | whatever the file holds, what is loaded fits every buffer, has at most 256 entries and is not empty |
| `ConfigFiles.LoadedFrom` | src/server_config.c:161-221 | without a file the defaults load, from broken JSON nothing; else the first 256 parsable entries, the default entries without a list, all defaults without an entry, and the namespace of the file or the default one |
| `ConfigFiles.ParsedJoin` | src/server_config.c:203-214 | entries are parsed one by one, in the order of the file |
| `ConfigFiles.WrittenFile` | src/server_config.c:223-231 | a save writes the namespace and one object for each entry, in order |
| `ServerConfig.ParseNodes` | src/server_config.c:203-214 | the loader's loop keeps the first 256 parsable entries, in order |
| `ServerConfig.AddNode` | src/server_config.c:24-41 | appends the entry with every text clipped to its buffer; a full table stays as it is |
| `ServerConfig.SeedDefaults` | src/server_config.c:43-65 | leaves exactly the seven default nodes and the default namespace |
| `NodeTree.FindNodeIndex` | src/node_manager.c:530-537 | the index of the first entry of that name, or -1 exactly when there is none |
| `NodeTree.NodeDepth` | src/node_manager.c:70-91 | the guarded walk computes the capped climb |
| `NodeTree.DepthIsCappedLength` | src/node_manager.c:70-91 | a node whose chain ends, at the root or at a dangling name, has the length of its chain for depth, capped at 32 |
| `NodeTree.CycleClimbs` | src/node_manager.c:70-91 | from a chain that meets an entry twice, a climb uses up any number of steps |
| `NodeTree.DepthDichotomy` | src/node_manager.c:70-91 | every node has a chain that ends within as many steps as there are entries, or hangs on a cycle and has depth 32 |
| `NodeTree.SortIsSorted` | src/node_manager.c:93-106 | the sort is a permutation in non-decreasing depth, and keeps names distinct |
| `NodeTree.ExchangeRow` | src/node_manager.c:97-105 | the inner loop, in place, is one row of exchanges |
| `NodeTree.SortNodesByDepth` | src/node_manager.c:93-106 | the in-place loops leave the sorted copy |
| `NodeTree.ChildIsDeeper` | src/node_manager.c:70-91 | without chains deeper than 32 a child is exactly one deeper than its parent |
| `NodeTree.ParentsFirst` | src/node_manager.c:70-106 | so in the sorted order every existing parent comes before its children |
| `Simulation.RunFlags` | src/node_manager.c:126-513 | after any trace the enabled and overridden flags are the last verdict of the trace on them, and sensors keep name and node |
| `Simulation.ValueIsAssignedThenToggled` | src/node_manager.c:126-513 | after any trace a sensor's value is the last value assigned to it, toggled once for each later tick that reaches it |
| `Simulation.EnablePathsAgree` | src/node_manager.c:147-505 | enabling by HTTP and by writing the node have the same effect, and a second time changes nothing |
| `Simulation.RunServes` | src/node_manager.c:434-513 | in every sequential run the served value of each sensor's node is the sensor's value |
| `Simulation.FlagIsServedOnceSet` | src/node_manager.c:225-246 | the flag's node serves the flag exactly from the first enable or disable on |
| `AddressSpace.MapFind` | src/node_manager.c:19-26 | the first used slot of that name, or -1 when no used slot has it |
| `EditRuns.RoomToRecord` | src/node_manager.c:38-48 | an add that will be recorded finds a free map slot |
| `EditRuns.CommitKeepsTracked` | src/node_manager.c:318-351 | an add keeps a slot of the map for each entry, also where names repeat, keeps the map within four of the configuration, and finds a free slot if it is recorded |
| `EditRuns.DeleteKeepsTracked` | src/node_manager.c:393-432 | so does a delete |
| `EditRuns.AtMostFourStrays` | src/node_manager.c:8-58 | at most four map entries are not configured |
| `Agreement.ResolvesToTarget` | src/node_manager.c:28-36 | a parent name resolves to its node if it is configured, else to Objects |
| `Agreement.WithAgrees` | src/node_manager.c:190-264 | creating a node the server takes extends map, tree and sensors by exactly that node |
| `Agreement.CommitAgrees` | src/node_manager.c:318-382 | the locked part of an add keeps the four structures in step, however stale the checks before the lock |
| `Agreement.DeleteAgrees` | src/node_manager.c:393-432 | a delete removes one leaf of the server's tree and nothing else, also where parent names dangle or form a cycle |
| `Agreement.ReachesWithin` | src/node_manager.c:28-36 | in the server's tree no climb to Objects needs more steps than there are nodes |
| `Interleavings.EveryInterleavingAgrees` | src/node_manager.c:318-513 | below capacity, every interleaving of adders, deleters and simulation events keeps configuration, map, tree and sensors in step, and the flag's node id |
| `EditEffects.AddsVariable` | src/node_manager.c:353-382 | below capacity a new variable is on the server under its configured parent, else under Objects; in the map; last in the configuration and in the file, with the fields of the request; a simulated one gets a sensor, a Boolean one serves false; nothing else changes |
| `EditEffects.AddsFolder` | src/node_manager.c:327-351 | likewise a folder |
| `EditEffects.FinishesVariable` | src/node_manager.c:363-382 | likewise an add of a variable whose checks were made earlier, whatever came between |
| `EditEffects.FinishesFolder` | src/node_manager.c:335-351 | likewise one of a folder |
| `EditEffects.FinishesLate` | src/node_manager.c:335-351 | if the name has been taken in between, or the server refuses, the add changes nothing |
| `EditEffects.PrecheckIff` | src/node_manager.c:353-361 | exactly which requests pass the checks before the lock, and which status the others get |
| `EditEffects.BeginsIff` | src/node_manager.c:353-363 | a request that passes waits as it is; another changes nothing |
| `EditEffects.DeleteStatusIff` | src/node_manager.c:393-407 | exactly when a delete of a configured node is refused, and with which status |
| `EditEffects.DeletesNode` | src/node_manager.c:409-428 | a delete takes the node off the server, out of the map and the served values, and its entry out of the configuration; nothing else changes |
| `EditEffects.DeletesSensor` | src/node_manager.c:416-423 | exactly the sensor of that name goes, and the others stay in order |
| `EditEffects.SetsNamespace` | src/http_server.c:116-126 | setting the namespace changes it and the file, and nothing else |
| `Interleavings.InStepMeans` | src/node_manager.c:318-432 | in step: every server node reaches Objects, every entry is in the map and on the server, there are no more sensors than entries |
| `Interleavings.EveryInterleavingIsTracked` | src/node_manager.c:318-432 | in every interleaving of adders and deleters, at any capacity and whatever the server answers or takes along, every entry has a slot of the map to itself, at most four slots stray, and one is free while the configuration has room |
| `Interleavings.FlagStaysInMap` | src/node_manager.c:393-432 | likewise the node of the enable flag stays the same, configured under its role, and in the map |
| `Interleavings.DeleteHoldsIff` | src/node_manager.c:393-432 | a delete that goes through leaves every entry mapped and on the server exactly when the server takes no other configured node along |
| `Interleavings.EveryInterleavingHolds` | src/node_manager.c:318-432 | as long as deletes keep to that, names stay unique in every interleaving of adders and deleters, at any capacity, although the duplicate check precedes the lock |
| `Interleavings.NamesStayUniqueIff` | src/node_manager.c:318-432 | after a delete, names stay unique whatever an outdated check lets through next exactly when no other configured node was taken along |
| `Interleavings.InStepSpares` | src/node_manager.c:393-432 | in step, a delete that goes through takes nothing along |
| `Interleavings.DeleteRemovesLeafIff` | src/node_manager.c:384-432 | a delete that goes through removes a leaf exactly when no unrecorded node hangs below it |
| `Interleavings.FullCapacityHidesAChild` | src/node_manager.c:335-351 | at 256 entries an add under a deletable node leaves it deletable although it has a child |
| `Restart.BuildAgrees` | src/node_manager.c:296-316 | a build creates exactly the given nodes, as a tree, and goes through if the server refuses none of them |
| `Restart.BuildPlacesInOrder` | src/node_manager.c:296-316 | a build puts each node under its parent if that was created earlier, else under Objects |
| `Restart.BuildPlaces` | src/node_manager.c:296-316 | a build puts every node where the names say exactly when parents come before children |
| `Restart.StartupAgrees` | src/node_manager.c:296-316 | a server started from any file is in step with what it loaded, with its nodes placed in the order of the sort |
| `StartedServers.StartsSimulating` | src/node_manager.c:207-316 | for any file of proper nodes and any refusals, a started server simulates; its sensors are exactly the Boolean variables marked simulated without the flag's role, each false and not overridden; every Boolean variable serves false |
| `StartedServers.FirstTick` | src/node_manager.c:434-463 | after its first tick each sensor is true, and so is what its node serves |
| `StartedServers.DefaultServer` | src/server_config.c:43-65 | without a file the server has the folder Sensors under Objects and six variables in it |
| `StartedServers.DefaultSimulation` | src/server_config.c:43-65 | Sensor1 to Sensor4 are its sensors, and SimulationEnabled is the flag |
| `Restart.PlacedFaithfullyIff` | src/node_manager.c:70-106 | that puts every node where the configuration says exactly when the sort puts parents first, which is so when no chain is deeper than 32 |
| `Restart.NextIsCurrent` | src/node_manager.c:345-428 | after every operation the saved file holds the live configuration |
| `Restart.RestartRebuildsIff` | src/node_manager.c:296-316 | for any state whose file is current, a restart goes through and rebuilds the live tree exactly when that has the nodes of the file, each under its parent if the sort creates it first, else under Objects |
| `Restart.LiveTreeReturnsIff` | src/node_manager.c:296-316 | in step, the places alone decide that |
| `Restart.RestartKeepsNodes` | src/node_manager.c:266-316 | a restart of a configuration with nodes keeps namespace, entries, simulated sensors and server nodes |
| `Restart.RestartRebuilds` | src/node_manager.c:296-316 | what it builds is where the configuration says exactly when the sort puts parents first; then it is the live tree exactly when the live nodes are where the configuration says |
| `Restart.CommitFaithfulIff` | src/node_manager.c:327-382 | an add keeps every node where the configuration says exactly when no entry already names the new node as its parent |
| `Restart.DeleteFaithful` | src/node_manager.c:393-432 | a delete always does |
| `Restart.RunStaysFaithful` | src/node_manager.c:318-432 | so does every run whose adds take no claimed name |
| `Restart.RunStaysCurrent` | src/node_manager.c:318-432 | every run below capacity, interleaved adds included, leaves everything in step and the file current |
| `Restart.EditsPersistIff` | src/node_manager.c:296-432 | after every such run a restart rebuilds the live tree exactly when each node sits under its parent if the sort creates that first, else under Objects |
| `Restart.EditsPersist` | src/node_manager.c:296-432 | so it does, with the same sensors and entries, after every run that takes no claimed name and leaves a node and no deep chain |
| `Restart.ExistingParentsKeepClaims` | src/node_manager.c:318-432 | runs whose adds name no parent or an existing one never take a claimed name |
| `RestartLimits.EditsUnderExistingParentsPersist` | src/node_manager.c:296-432 | edits under existing parents persist across a restart: same tree, same sensors, same entries |
| `RestartLimits.RestartKeepsNodesIff` | src/server_config.c:218-220 | a restart keeps the entries exactly when there are any; otherwise it brings the defaults |
| `RestartLimits.LastDeleteIsUndone` | src/node_manager.c:393-432 | deleting the last node empties configuration and tree, and a restart undoes it with the defaults |
| `RestartLimits.DeepSort` | src/node_manager.c:70-106 | on a chain of 34 folders and one more, the sort leaves the last folder before its parent |
| `RestartLimits.DeepChainMoves` | src/node_manager.c:296-316 | so a restart moves that folder under Objects |
| `RestartLimits.DeepChainIsReached` | src/node_manager.c:318-351 | adds to a started server reach that chain, every folder under its parent, and a restart does not rebuild the tree |
| `RestartLimits.CycleReturns` | src/node_manager.c:296-316 | two folders that name each other, one of them under Objects, survive a restart although they are not where the configuration says |
| `RestartLimits.CycleIsReached` | src/node_manager.c:318-351 | one add to a started server makes such a cycle |
| `CapacityRuns.AddPersistsIff` | src/node_manager.c:335-349 | an add that the server takes is live at once, and back after a restart exactly when there was room to record it |
| `CapacityRuns.FullServerStarts` | src/server_config.c:203-214 | a file of 256 entries starts a full server that is in step and has only deletable nodes |
| `CapacityRuns.FullServerHidesAChild` | src/node_manager.c:335-351 | from there one add leaves a node deletable although it has a child |
| `CapacityRuns.NameComesTwice` | src/node_manager.c:318-432 | from any full configuration with two deletable nodes, two interleaved adders and a deleter configure a name twice when a delete takes a configured node along |
| `CapacityRuns.FullServerNamesTwice` | src/node_manager.c:318-432 | a started server has such a run |
| `Simulation.BufferedIff` | src/node_manager.c:434-471 | the arrays of 256 suffice for every event exactly when there are at most 256 sensors |
| `SensorRuns.BuffersSuffice` | src/node_manager.c:434-471 | they suffice in every interleaving in which no add meets a full configuration |
| `SensorRuns.NextBufferedIff` | src/node_manager.c:249-259 | after an operation they go on to suffice exactly unless it added a simulated variable to 256 sensors |
| `SensorRuns.RunBufferedIff` | src/node_manager.c:249-259 | at any capacity they suffice throughout a run exactly when each new sensor finds fewer than 256 |
| `SensorRuns.OneTooManyOverflows` | src/node_manager.c:353-382 | with 256 sensors one more simulated variable is taken, and then they suffice for neither a tick nor either enable path |
| `SensorRuns.FullServerOverflows` | src/node_manager.c:353-382 | a server started from a file of 256 simulated variables gets there |
| `NodeManagers.NodeManager.constructor` | src/node_manager.c:266-279 | an empty map, no sensors, simulation enabled, the given configuration |
| `NodeManagers.NodeManager.FindSlot` | src/node_manager.c:19-26 | the loop finds the first used slot of that name |
| `NodeManagers.NodeManager.AddSlot` | src/node_manager.c:38-48 | fills the first free slot, or nothing when there is none |
| `NodeManagers.NodeManager.RemoveSlot` | src/node_manager.c:50-58 | frees the slot of that name, if there is one |
| `NodeManagers.NodeManager.ParentNode` | src/node_manager.c:28-36 | the node of the parent name, or Objects |
| `NodeManagers.NodeManager.AddSensor` | src/node_manager.c:108-124 | appends a sensor with value and override false, growing the array when it is full |
| `NodeManagers.NodeManager.CreateFolder` | src/node_manager.c:190-205 | creates the node and its map entry, or changes nothing when the server refuses |
| `NodeManagers.NodeManager.CreateVariable` | src/node_manager.c:207-264 | also sets up the flag or the sensor that the variable stands for |
| `NodeManagers.NodeManager.CreateAll` | src/node_manager.c:304-315 | creates entry after entry up to the first refusal, passing over unknown kinds |
| `NodeManagers.NodeManager.Build` | src/node_manager.c:296-316 | creates the sorted configuration |
| `NodeManagers.NodeManager.Save` | src/server_config.c:223-256 | the file holds the JSON tree of the configuration |
| `NodeManagers.NodeManager.AddFolder` | src/node_manager.c:327-351 | status and new state of the whole call: checks, creation, recording, saving |
| `NodeManagers.NodeManager.AddVariable` | src/node_manager.c:353-382 | likewise, with the check of the simulated type |
| `NodeManagers.NodeManager.HasChildrenInConfig` | src/node_manager.c:384-391 | true exactly when an entry names that parent |
| `NodeManagers.NodeManager.RemoveSensor` | src/node_manager.c:416-423 | closes the gap of the first sensor of that name; the rest keeps its order |
| `NodeManagers.NodeManager.RemoveNode` | src/node_manager.c:425-427 | closes the gap of the entry; the rest keeps its order |
| `NodeManagers.NodeManager.DeleteNode` | src/node_manager.c:393-432 | status and new state of the whole call, refusals included |
| `NodeManagers.NodeManager.Toggle` | src/node_manager.c:441-455 | the locked part of a tick: toggles every sensor that is not overridden and collects its node and value in arrays of 256, if they suffice |
| `NodeManagers.NodeManager.Tick` | src/node_manager.c:434-463 | if the arrays suffice, toggles and serves every sensor that is not overridden while simulation is enabled |
| `NodeManagers.NodeManager.SetSimulationEnabled` | src/node_manager.c:465-505 | with at most 256 sensors, the flag, the sensors and all served values after the HTTP path |
| `NodeManagers.NodeManager.ClientWritesEnabled` | src/node_manager.c:147-188 | the same after a client's write; values of another type are ignored |
| `NodeManagers.NodeManager.ClientWritesSensor` | src/node_manager.c:126-145 | a Boolean write sets and overrides exactly that sensor |
| `NodeManagers.NodeManager.ResetOverrides` | src/node_manager.c:507-513 | clears every override and nothing else |
| `BridgeState.SurvivingFilters` | internal/bridge/service.go:281-293 | the survivors are exactly the connections whose write did not fail, without repetition if there was none |
| `BridgeState.SurvivingJoins` | internal/bridge/service.go:281-293 | in their order |
| `BridgeState.StartOutcomeIff` | internal/bridge/service.go:296-315 | exactly which starts go through, and which of the four refusals the others get |
| `BridgeState.WithoutConnRemoves` | internal/bridge/service.go:344-361 | removal drops exactly that connection from a list without repetitions |
| `BridgeState.Service.constructor` | internal/bridge/service.go:69-71 | nothing connected, nothing running |
| `BridgeState.Service.ConnectBegin` | internal/bridge/service.go:118-128 | refused and without effect while the bridge runs, else no client and not connected |
| `BridgeState.Service.ConnectEnd` | internal/bridge/service.go:149-153 | the new client is in place and connected |
| `BridgeState.Service.Disconnect` | internal/bridge/service.go:157-172 | refused and without effect while the bridge runs, else no client and not connected |
| `BridgeState.Service.StartSection` | internal/bridge/service.go:296-321 | goes through exactly when the bridge is off, connected with a client, the port is from 1 to 65535 and free; then it runs with the new listener and channel and an empty list |
| `BridgeState.Service.StopSection` | internal/bridge/service.go:403-416 | hands out channel, listener and connections once and switches the bridge off |
| `BridgeState.Service.AcceptSection` | internal/bridge/service.go:337-339 | appends the connection |
| `BridgeState.Service.Broadcast` | internal/bridge/service.go:281-293 | the in-place compaction is the order-preserving filter of the writes that succeeded |
| `BridgeState.Service.RemoveConn` | internal/bridge/service.go:349-356 | the in-place splice removes the first occurrence, if there is one |
| `BridgeState.Service.TickProceeds` | internal/bridge/service.go:376-382 | a tick goes on only while the bridge runs connected with a client |
| `BridgeState.Service.ConnectionLost` | internal/bridge/service.go:386-388 | clears the connected flag only |
| `BridgeState.Service.NextSequence` | internal/bridge/service.go:276-276 | each frame takes the next 64-bit number |
| `BridgeProtocol.NextFlags` | internal/bridge/service.go:117-172 | every step keeps: running exactly with a listener and with a stop channel, running or connected only with a client |
| `BridgeProtocol.NextChannels` | internal/bridge/service.go:403-429 | every step keeps: a stop channel is with the service, with one stopping call, or closed once |
| `BridgeProtocol.NextConns` | internal/bridge/service.go:330-361 | every step keeps: no connection is listed twice, or again after it has left |
| `BridgeProtocol.NextCounted` | internal/bridge/service.go:321-336 | every step keeps: the wait group counts the live loops |
| `BridgeProtocol.EveryRunIsSafe` | internal/bridge/service.go:117-429 | all of that in every interleaving of any number of calls, loops and watchers; no channel is closed twice |
| `BridgeConnections.DisconnectedNeverStarts` | internal/bridge/service.go:157-172 | after a Disconnect of a bridge that is off, the client is gone and no start goes through in any run until a Connect succeeds |
| `BridgeConnections.FailedConnectNeverStarts` | internal/bridge/service.go:117-153 | likewise after a Connect that has not succeeded |
| `BridgeConnections.ConnectedStarts` | internal/bridge/service.go:149-153 | after one that has, a start with a valid and free port goes through |
| `BridgeConnections.StartsAndStops` | internal/bridge/service.go:296-416 | what a start and the stop after it do to each shared field, and what the stop has to close |
| `BridgeConnections.LostStopsTicks` | internal/bridge/service.go:376-392 | a tick loop that finds the connection lost quits, and no tick loop goes on from a turn of the clock until a Connect succeeds |
| `BridgeConnections.SelfStopsCounted` | internal/bridge/service.go:390-391 | each tick loop that quits asks for exactly one stop |
| `BridgeConnections.ClosedTakesNone` | internal/bridge/service.go:330-342 | once a listener is closed, no connection comes in through it |
| `BridgeStops.EveryRunIsAccounted` | internal/bridge/service.go:363-429 | in every interleaving each channel a tick loop has captured and each listener an accept loop serves is with the service, owed by a stopping call, or closed |
| `BridgeStops.BlockedNeverReturns` | internal/bridge/service.go:363-429 | a blocked stop stays under way in every run without another start |
| `BridgeStops.StopProgresses` | internal/bridge/service.go:330-429 | with the bridge off and no loop stuck, some step of a loop or a stopping call is enabled and lowers the work left, so no deadlock |
| `BridgeStops.WorkFalls` | internal/bridge/service.go:330-429 | every such step lowers the work left over all loops and stopping calls |
| `BridgeStops.EveryScheduleReturns` | internal/bridge/service.go:330-429 | with the bridge off and every loop with its channel, no schedule of such steps is longer than the work left or ends before the stop has returned |
| `BridgeStops.StopReturnsIff` | internal/bridge/service.go:363-429 | in every reachable state a stop under way can return without another start exactly when it is not blocked: off, by a loop that has not read its channel or found none; running again, by a loop that found none while the connection is gone for good |
| `BridgeStops.AnotherStartFrees` | internal/bridge/service.go:296-429 | with another connection, start and stop it can always return |
| `BridgeSerial.SerialRunsHaveOneTickLoop` | internal/bridge/service.go:296-429 | if no call overlaps a start, at most one tick loop and one accept loop are alive |
| `BridgeSerial.DeafLoopBlocksStop` | internal/bridge/service.go:363-374 | in runs in which no call overlaps a start, a stop beside a tick loop without a channel never returns, as no start can begin beside it |
| `BridgeSerial.SerialStopReturnsIff` | internal/bridge/service.go:363-429 | in such runs a stop can return exactly when there is no tick loop without its channel |
| `BridgeLoops.OneTickLoop` | internal/bridge/service.go:296-429 | if each start that goes through finds no other tick loop, alive or about to be launched, at most one is ever alive |
| `BridgeLoops.FramesAreOrdered` | internal/bridge/service.go:249-293 | if each finds none that can still send, every connection gets strictly increasing numbers across restarts, and consecutive ones while encoding never fails |
| `BridgeLoops.WireNumbers` | internal/bridge/service.go:275-276 | on the wire these increase until the 64-bit counter wraps, and follow each other modulo 2^64 also when it has |
| `BridgeLoops.SerialIsAlone` | internal/bridge/service.go:296-429 | runs in which no call overlaps a start meet the first condition |
| `BridgeLoops.AloneIsQuiet` | internal/bridge/service.go:296-429 | the first condition implies the second |
| `BridgeOverlap.TwoLoops` | internal/bridge/service.go:321-327 | from any start that finds another loop, spawning alone leads to two tick loops |
| `BridgeOverlap.StartAloneIff` | internal/bridge/service.go:321-327 | where at most one loop lives, a start keeps it so in every continuation exactly when it finds no other loop |
| `BridgeOverlap.FramesCross` | internal/bridge/service.go:249-293 | from any start that finds a loop which can still send, some connection gets a frame before an earlier one |
| `BridgeOverlap.StartQuietIff` | internal/bridge/service.go:249-293 | where frames are in order, a start keeps them so in every continuation exactly when it finds no loop that can still send |
| `BridgeRuns.TwoTickLoops` | internal/bridge/service.go:321-327 | two tick loops are reached from the initial state |
| `BridgeRuns.FramesOutOfOrder` | internal/bridge/service.go:249-293 | so is a connection that gets frame 2 before frame 1 |
| `BridgeRuns.StopTooSoon` | internal/bridge/service.go:363-374 | calls one after the other reach a stop that no run without another start returns |
| `BridgeRuns.TooSoonIsFreed` | internal/bridge/service.go:363-374 | another start and stop return it |
| `BridgeRuns.LateLoop` | internal/bridge/service.go:321-327 | a start beside a loop without a channel, and its stop: the stop is blocked although its own loop has its channel |
| `BridgeRuns.LateLoopIsReached` | internal/bridge/service.go:321-327 | that is reached from the initial state |
| `MsgPack.ReadsShort` | src/opcua_tcp_bridge.c:74-78 | the shortest form of every 64-bit integer reads back as the integer |
| `MsgPack.ReadsWide` | internal/frame/encode.go:19-31 | the form with the width of the type reads back as the integer |
| `MsgPack.UnpackPacked` | src/opcua_tcp_bridge.c:60-118 | whatever follows it, a packed value unpacks to its meaning and leaves what follows |
| `MsgPack.UnpackExtends` | PROTOCOL.md:6-6 | more bytes never change a result already reached |
| `MsgPack.PrefixIsIncomplete` | PROTOCOL.md:6-6 | no proper prefix of a packed value reads as a value |
| `WireFormat.ShortFormats` | src/opcua_tcp_bridge.c:74-78 | head byte and width of the shortest form of every integer, as the specification has them |
| `WireFormat.WideFormats` | internal/frame/encode.go:19-31 | head byte and width of each integer type |
| `WireFormat.ScalarFormats` | src/opcua_tcp_bridge.c:86-109 | the bytes of Booleans and floats |
| `WireFormat.LengthFormats` | src/opcua_tcp_bridge.c:60-84 | the bytes before texts, arrays and maps of each length |
| `WireFormat.FourBytes` | src/opcua_tcp_bridge.c:74-78 | the most significant byte comes first |
| `WireFormat.FrameFields` | PROTOCOL.md:13-20 | what a receiver reads of a frame is under the names of the protocol |
| `WireFormat.SensorFields` | PROTOCOL.md:22-30 | so is what it reads of a sensor |
| `Frames.FrameReads` | internal/frame/encode.go:19-43 | for every order of map keys and either integer style, the receiver learns what was sent |
| `Frames.FrameRoundTrip` | src/opcua_tcp_bridge.c:60-118 | decoding an encoded frame followed by anything gives the frame and what follows |
| `Frames.ChunksDoNotMatter` | PROTOCOL.md:6-6 | however a stream is cut into reads, the receiver gets the same values and keeps the same rest |
| `Frames.StreamIsReceived` | PROTOCOL.md:6-6 | any concatenation of frames of any writers, cut anywhere, is received as exactly the list of frames sent |
| `FrameWriters.CanonicalBytes` | src/gui/BridgeEngine.cpp:207-285 | the calls of the C and C++ encoders write a frame in one layout of the common format |
| `FrameWriters.AppendSensor` | src/opcua_tcp_bridge.c:86-109 | the bytes of one turn of the sensor loop |
| `FrameWriters.AppendFrame` | src/opcua_tcp_bridge.c:60-109 | head and loop together write the encoded frame |
| `FrameWriters.EncodeSnapshot` | src/opcua_tcp_bridge.c:60-118 | the frame of the five sensors if it fits the buffer, else nothing |
| `FrameWriters.SnapshotFits` | src/opcua_tcp_bridge.c:496-500 | such a frame has 180 to 196 bytes, exactly 178 and the forms of number and time, so 512 bytes always suffice |
| `FrameWriters.SnapshotIsRead` | src/opcua_tcp_bridge.c:60-118 | a receiver gets version 1, number, time, and the five sensors in order, each a Boolean under its name with its value |
| `Encoders.LiveOnesIff` | src/gui/BridgeEngine.cpp:229-234 | the mappings a frame carries are exactly the enabled ones with a node id |
| `Encoders.LiveOnesJoin` | src/gui/BridgeEngine.cpp:229-234 | in their order |
| `Encoders.Engine.EncodeFrame` | src/gui/BridgeEngine.cpp:207-285 | advances the 64-bit counter and writes a frame from which a receiver gets each live mapping with the value read for it |
| `Encoders.EngineFrameIsRead` | src/gui/BridgeEngine.cpp:207-285 | a receiver gets each live mapping once and in order, under its message id or, where that is empty, its node id, with its type code; Booleans, integers and floats as read, and false for another type or a failed read |
| `Encoders.SensorMaps` | internal/frame/encode.go:33-43 | one map per sensor, in order |
| `Encoders.Encode` | internal/frame/encode.go:19-31 | writes the frame in the common format, with keys in any order |
| `Browser.ChildIsSmaller` | src/gui/OpcUaBrowser.cpp:31-93 | without cycles every recursive call reaches fewer nodes, so discovery terminates |
| `Browser.Discovery.BrowseRecursive` | src/gui/OpcUaBrowser.cpp:31-93 | appends the listing; fails exactly when the node itself is refused |
| `Browser.ListsEveryRouteInOrder` | src/gui/OpcUaBrowser.cpp:31-93 | the listing is the ends of all routes through objects to a variable, once per route, in depth-first order, also where some browses fail |
| `Browser.DescribedBy` | src/gui/OpcUaBrowser.cpp:58-74 | each under its own id and names, with the id for a missing browse name and the browse name for a missing display name |
| `Browser.EachVariableOnce` | src/gui/OpcUaBrowser.cpp:31-93 | on a tree it lists exactly the variables below objects only, each once |
| `Browser.CycleHasNoBound` | src/gui/OpcUaBrowser.cpp:72-88 | where an object leads back to itself the recursion has no bound |
| `Upload.Connection.ReadPostBody` | src/http_server.c:51-81 | starts the buffer or appends at its first NUL; never called with the marker |
| `Upload.Connection.FreeKept` | src/http_server.c:83-89 | clears what is kept; never called with the marker |
| `Upload.Connection.AccessHandler` | src/http_server.c:380-448 | one call: what is kept, and the body if it dispatches |
| `Upload.Connection.Request` | src/http_server.c:380-448 | a whole request is the fold of its calls |
| `Upload.DispatchesOnce` | src/http_server.c:380-448 | every request dispatches exactly once, keeps nothing, and its body is the chunks, each cut at its first NUL |
| `Upload.BodyIsTextIff` | src/http_server.c:51-81 | the body is the text of the whole upload exactly when every chunk after one with a NUL begins with a NUL |
| `Upload.NulFreeBodyArrives` | src/http_server.c:380-448 | for every chunking of a body without NULs, no chunks included, the one dispatch gets the body |
| `NodeIds.DecimalReads` | src/http_server.c:91-95 | printing and reading a decimal number undo each other |
| `NodeIds.DecimalDigits` | src/http_server.c:91-95 | decimals have no leading zeros and their last digit last |
| `NodeIds.TextForms` | src/http_server.c:91-95 | the printed forms, written out |
| `NodeIds.NeverTruncated` | src/http_server.c:91-157 | the 128-byte buffer never cuts the id of an accepted name |
| `NodeIds.SplitsBack` | internal/nodeid/parse.go:12-12 | a text in the form splits into its parts in one way only |
| `NodeIds.StringIdRoundTripIff` | internal/nodeid/parse.go:15-41 | parsing a printed string id gives it back exactly when its name is not empty, has no line break and does not end in white space |
| `NodeIds.NumericIdRoundTrip` | internal/nodeid/parse.go:15-37 | parsing a printed numeric id gives it back |
| `NodeIds.ServedIdParses` | src/http_server.c:91-95 | what the server prints for any accepted name in any 16-bit namespace parses to that node |
| `NodeIds.FormIff` | internal/nodeid/parse.go:24-43 | of the texts in the form, exactly those with a 16-bit namespace and, for a numeric id, plain digits below 2^32 parse; the error of each other one |
| `NodeIds.BlankIff` | internal/nodeid/parse.go:16-19 | white space alone is told apart from other texts that are not in the form |
| `NodeIds.ParsedIdsRoundTrip` | internal/nodeid/parse.go:15-44 | the printed form of any parsed id parses to the same id |
| `NodeIds.QtAgreesIff` | src/gui/BridgeEngine.cpp:12-41 | where the Go grammar accepts a text, the Qt parser finds the same id exactly unless it is a number of 2^31 or more |
| `NodeIds.QtKindsIff` | src/gui/BridgeEngine.cpp:22-39 | of the four kinds the Qt expression finds, ids come from s and i only |
| `NodeIds.SignedNumbers` | src/gui/BridgeEngine.cpp:32-35 | it reads numbers with an optional sign, within 32 bits |
| `NodeIds.QtRefusesOtherKinds` | src/gui/BridgeEngine.cpp:22-39 | where it finds a form of kind g or b, it takes no id |
| `NodeIds.GoRefusesOtherKinds` | internal/nodeid/parse.go:12-27 | such a form is not in the form of the Go service |
| `NodeIds.QtAcceptsMoreIff` | src/gui/BridgeEngine.cpp:12-41 | of the texts the Qt parser accepts, the Go one refuses exactly those with text before the form, a line break after it, or a number that is not plain digits |
| `NodeIds.QtAcceptsMore` | src/gui/BridgeEngine.cpp:12-41 | a printed string id with one more character before it is such a text |
| `LegacyBridge.Reconnector.constructor` | src/opcua_tcp_bridge.c:371-379 | a delay of 1000, nothing resolved and five null ids |
| `LegacyBridge.Reconnector.BrowseSensors` | src/opcua_tcp_bridge.c:404-414 | the ids found, in order, up to the first sensor that is not found, whose id is cleared; later ids stay |
| `LegacyBridge.IdsByPosition` | src/opcua_tcp_bridge.c:405-414 | position by position: found, cleared, or as before |
| `LegacyBridge.Reconnector.TryReconnect` | src/opcua_tcp_bridge.c:381-437 | one pass of the loop: whether an attempt is made, and every variable after it |
| `LegacyBridge.BackoffIsDelay` | src/opcua_tcp_bridge.c:378-438 | in every run the delay is 1000 * 2^k after k failures in a row up to 4, then 10000, never above 16000 |
| `LegacyBridge.AttemptsAreSpaced` | src/opcua_tcp_bridge.c:392-438 | while the clock does not go back, attempts are at least that delay apart |
| `LegacyBridge.NeverAgainIff` | src/opcua_tcp_bridge.c:383-395 | no pass attempts again while the session lasts exactly when the sensors are resolved and the namespace is known |
| `LegacyBridge.IdsAreOfLastBrowse` | src/opcua_tcp_bridge.c:397-437 | in every run the sensors count as resolved exactly when the last attempt that browsed for them found all five, and then the ids are those it found |
| `LegacyBridge.StaleIdsAreKeptIff` | src/opcua_tcp_bridge.c:397-437 | after an attempt that reached the server without resolving all sensors, no further attempt is made exactly when they were resolved before and the namespace or the folder was missing; then the ids an earlier attempt found stay as they are while the session lasts |
| `LegacyBridge.StaleIdsAreReached` | src/opcua_tcp_bridge.c:397-437 | a session lost after resolving that comes back without the namespace is such a case |
| `LegacyBridge.Publisher.ReadSensors` | src/opcua_tcp_bridge.c:240-269 | takes the next 64-bit number, and reads true exactly for a Boolean that is true |
| `LegacyBridge.Publisher.Update` | src/opcua_tcp_bridge.c:487-504 | every update has a whole frame to send, from which a receiver gets the next number and five sensors, each true exactly if its read gave true |
| `ClientTables.ClientTable.FindFree` | src/opcua_tcp_bridge.c:120-128 | the first free slot, or -1 exactly when all 32 are taken |
| `ClientTables.ClientTable.Remove` | src/opcua_tcp_bridge.c:130-137 | frees that slot, if it is active |
| `ClientTables.ClientTable.Accept` | src/opcua_tcp_bridge.c:139-163 | takes the first free slot; closes the connection exactly when there is none |
| `ClientTables.ClientTable.Broadcast` | src/opcua_tcp_bridge.c:165-178 | exactly the connections that did not take the whole frame leave the table |
| `ClientTables.EveryClientGetsConsecutiveFrames` | src/opcua_tcp_bridge.c:165-245 | in every run each connection takes consecutive frame numbers (modulo 2^64), and no connection is in two slots |
| `ClientTables.BroadcastIff` | src/opcua_tcp_bridge.c:165-178 | a frame is taken by, and keeps, exactly the connections in the table that take it whole |
| `ClientTables.ArrivesIff` | src/opcua_tcp_bridge.c:139-163 | a new connection gets in exactly when a slot is free |
| `ClientTables.ClosesIff` | src/opcua_tcp_bridge.c:130-137 | closing a slot takes out its connection and no other |
| `ClientTables.TakesEveryFrame` | src/opcua_tcp_bridge.c:165-178 | a connection in the table that takes every frame whole gets every frame and stays |
| `ClientTables.GoneIsGone` | src/opcua_tcp_bridge.c:130-178 | a connection that has left the table takes no further frame |

## Left out

- Interleavings.EveryInterleavingAgrees: covers runs in which no add meets a full configuration; at full capacity `EveryInterleavingIsTracked`, `FlagStaysInMap`, `EveryInterleavingHolds`, `DeleteRemovesLeafIff` and modules `CapacityRuns` and `SensorRuns` say what remains. A tick or an enable path for which the arrays of 256 do not suffice has no defined effect in the code; what the model says of later sensor values does not apply there.
- NodeManagers.NodeManager.ClientWritesSensor: addresses a sensor by its name; the code stores the address of an array slot, which growing or compacting the array can change.
- NodeManagers.NodeManager.Tick: runs whole; in the code the server writes follow after the lock is released, so another call can come between.
- NodeManagers.NodeManager.SetSimulationEnabled: runs whole, for the same reason.
- NodeManagers.NodeManager.ClientWritesEnabled: runs whole, for the same reason.
- NodeIds.ParseQt: models the fallback grammar; the native parser of the OPC UA library that the code tries first is not part of this model, and is assumed to agree on printed ids.
- NodeIds.QtParse: white space is the set of the Go library; the two libraries differ in rare characters.
- Browser.Discovery.BrowseRecursive: takes each answer as complete; continuation points are not followed in the code either.
- ClientTables.ClientTable.Accept: tells connections apart by number and never sees a number twice, while the operating system reuses descriptors.
- Text is a sequence of characters that stand for bytes; UTF-8 and Unicode conversion are not modelled.
- Files, environment variables, sockets, select, signals and clocks become parameters or are left out; so does allocation failure.
- The libraries (open62541, gopcua, libmicrohttpd, cJSON, msgpack, Qt) appear only as the small contracts above.
- Static file serving, response building, JSON handlers, the web front ends and the Qt windows.
- `internal/bridge/value.go` and `internal/config/config.go`: one-branch conversions and thin wrappers.
- The error message the Go service keeps for its status page.

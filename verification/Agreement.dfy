/** When map, server tree and sensors agree with a list of node definitions, and that creating
    and deleting a node keep them agreeing. */
module Agreement {
  import opened Wrappers
  import opened ServerConfig
  import opened NodeTree
  import opened Simulation
  import opened AddressSpace
  import opened EditRuns

  // ---------- trees ----------

  /** Climbing from `id` meets Objects within k steps, over nodes that all exist. */
  ghost predicate Reaches(tree: map<string, NodeId>, id: NodeId, k: nat)
    decreases k
  {
    id == Objects || (id.name in tree && k > 0 && Reaches(tree, tree[id.name], k - 1))
  }

  /** Every node hangs below Objects: the parent relation is closed and has no cycle. */
  ghost predicate IsTree(tree: map<string, NodeId>) {
    forall n :: n in tree ==> exists k: nat :: Reaches(tree, Named(n), k)
  }

  ghost predicate IsLeaf(tree: map<string, NodeId>, name: string) {
    forall n :: n in tree ==> tree[n] != Named(name)
  }

  lemma {:induction false} ReachesMore(tree: map<string, NodeId>, id: NodeId, k: nat, x: string, p: NodeId)
    requires Reaches(tree, id, k) && x !in tree
    ensures Reaches(tree[x := p], id, k)
    decreases k
  {
    if id != Objects {
      ReachesMore(tree, tree[id.name], k - 1, x, p);
    }
  }

  lemma AddLeaf(tree: map<string, NodeId>, x: string, p: NodeId)
    requires IsTree(tree) && x !in tree && (p == Objects || p.name in tree)
    ensures IsTree(tree[x := p])
  {
    var t := tree[x := p];
    forall n | n in t ensures exists k: nat :: Reaches(t, Named(n), k) {
      if n == x {
        if p == Objects {
          assert Reaches(t, Named(x), 1);
        } else {
          var k: nat :| Reaches(tree, Named(p.name), k);
          ReachesMore(tree, p, k, x, p);
          assert Reaches(t, Named(x), k + 1);
        }
      } else {
        var k: nat :| Reaches(tree, Named(n), k);
        ReachesMore(tree, Named(n), k, x, p);
      }
    }
  }

  lemma {:induction false} ReachesLess(tree: map<string, NodeId>, id: NodeId, k: nat, x: string)
    requires Reaches(tree, id, k) && IsLeaf(tree, x) && id != Named(x)
    ensures Reaches(tree - {x}, id, k)
    decreases k
  {
    if id != Objects {
      ReachesLess(tree, tree[id.name], k - 1, x);
    }
  }

  lemma RemoveLeaf(tree: map<string, NodeId>, x: string)
    requires IsTree(tree) && IsLeaf(tree, x)
    ensures IsTree(tree - {x})
  {
    forall n | n in tree - {x} ensures exists k: nat :: Reaches(tree - {x}, Named(n), k) {
      var k: nat :| Reaches(tree, Named(n), k);
      ReachesLess(tree, Named(n), k, x);
    }
  }

  // ---------- agreement with the definitions made so far ----------

  function Target(names: set<string>, parent: string): NodeId {
    if parent in names then Named(parent) else Objects
  }

  ghost predicate Proper(made: seq<NodeDef>) {
    Distinct(made) && "" !in Names(made) && forall d :: d in made ==> KnownKind(d)
  }

  ghost predicate MapAgrees(slots: seq<Slot>, made: seq<NodeDef>) {
    |slots| == MAP_MAX && UsedCount(slots) == |made|
    && (forall i :: 0 <= i < |slots| && slots[i].Used? ==> slots[i].id == Named(slots[i].name))
    && (forall i, j :: 0 <= i < j < |slots| && slots[i].Used? && slots[j].Used? ==> slots[i].name != slots[j].name)
    && (forall n :: 0 <= MapFind(slots, n) <==> n in Names(made))
  }

  /** The server holds exactly these nodes, as a tree, each under its named parent or Objects. */
  ghost predicate TreeAgrees(server: map<string, NodeId>, made: seq<NodeDef>) {
    server.Keys == Names(made) && IsTree(server)
    && forall d :: d in made ==>
      server[d.browseName] == Objects || server[d.browseName] == Target(Names(made), d.parentName)
  }

  ghost function SensorNames(sensors: seq<Sensor>): set<string> {
    set x | x in sensors :: x.name
  }

  ghost function SimulatedNames(made: seq<NodeDef>): set<string> {
    set d | d in made && IsSimulated(d) :: d.browseName
  }

  /** One sensor for each simulated variable, and the flag's node among the flag variables. */
  ghost predicate SimAgrees(sim: Sim, made: seq<NodeDef>) {
    OwnNodes(sim) && ServesSensors(sim) && SensorNames(sim.sensors) == SimulatedNames(made)
    && (sim.node.Some? <==> exists d :: d in made && IsFlag(d))
    && (sim.node.Some? ==> exists d :: d in made && IsFlag(d) && sim.node == Some(Named(d.browseName)))
  }

  ghost predicate Agrees(s: State, made: seq<NodeDef>) {
    Proper(made) && MapAgrees(s.slots, made) && TreeAgrees(s.server, made) && SimAgrees(s.sim, made)
  }

  /** The four structures are in step with the configuration. */
  ghost predicate InStep(s: State) {
    |s.nodes| <= MAX_NODES && Agrees(s, s.nodes)
  }

  lemma ResolvesToTarget(slots: seq<Slot>, made: seq<NodeDef>, parent: string)
    requires MapAgrees(slots, made) && "" !in Names(made)
    ensures ResolveParent(slots, parent) == Target(Names(made), parent)
  {
  }

  lemma FreeSlot(slots: seq<Slot>, made: seq<NodeDef>)
    requires MapAgrees(slots, made) && |made| < MAP_MAX
    ensures 0 <= FirstFree(slots)
  {
    if FirstFree(slots) < 0 {
      UsedCountFull(slots);
    }
  }

  // ---------- creating ----------

  lemma MapAddAgrees(slots: seq<Slot>, made: seq<NodeDef>, d: NodeDef)
    requires MapAgrees(slots, made) && |made| < MAP_MAX && d.browseName !in Names(made)
    ensures MapAgrees(MapAdd(slots, d.browseName, Named(d.browseName)), made + [d])
  {
    var name := d.browseName;
    var t := MapAdd(slots, name, Named(name));
    FreeSlot(slots, made);
    NamesAppend(made, d);
    MapAddFinds(slots, name, Named(name), name);
    assert MapFind(slots, name) < 0;
    forall n ensures 0 <= MapFind(t, n) <==> n in Names(made + [d]) {
      MapAddFinds(slots, name, Named(name), n);
    }
  }

  lemma TreeAddAgrees(server: map<string, NodeId>, made: seq<NodeDef>, d: NodeDef)
    requires TreeAgrees(server, made) && d.browseName !in Names(made)
    ensures TreeAgrees(server[d.browseName := Target(Names(made), d.parentName)], made + [d])
  {
    NamesAppend(made, d);
    AddLeaf(server, d.browseName, Target(Names(made), d.parentName));
    assert forall e :: e in made ==> e.browseName in Names(made);
  }

  lemma SensorAppend(sensors: seq<Sensor>, x: Sensor)
    ensures SensorNames(sensors + [x]) == SensorNames(sensors) + {x.name}
    ensures forall y :: y in sensors + [x] <==> y in sensors || y == x
  {
    assert forall y :: y in sensors + [x] <==> y in sensors || y == x;
  }

  lemma SimulatedAppend(made: seq<NodeDef>, d: NodeDef)
    ensures SimulatedNames(made + [d]) == SimulatedNames(made) + (if IsSimulated(d) then {d.browseName} else {})
    ensures (exists e :: e in made + [d] && IsFlag(e)) <==> (exists e :: e in made && IsFlag(e)) || IsFlag(d)
  {
    NamesAppend(made, d);
    assert d in made + [d];
  }

  lemma SensorsNamed(sim: Sim, made: seq<NodeDef>, x: Sensor)
    requires SimAgrees(sim, made) && x in sim.sensors
    ensures x.name in Names(made)
  {
    assert x.name in SensorNames(sim.sensors);
  }

  lemma SensorsDiffer(sim: Sim, made: seq<NodeDef>, d: NodeDef)
    requires SimAgrees(sim, made) && d.browseName !in Names(made)
    ensures forall y :: y in sim.sensors ==> y.name != d.browseName && y.id == Named(y.name)
    ensures sim.node.Some? ==> exists e :: e in made + [d] && IsFlag(e) && sim.node == Some(Named(e.browseName))
  {
    forall y | y in sim.sensors ensures y.name != d.browseName && y.id == Named(y.name) {
      SensorsNamed(sim, made, y);
    }
    if sim.node.Some? {
      var e :| e in made && IsFlag(e) && sim.node == Some(Named(e.browseName));
      assert e in made + [d];
    }
  }

  lemma AddFlagAgrees(sim: Sim, made: seq<NodeDef>, d: NodeDef)
    requires SimAgrees(sim, made) && d.browseName !in Names(made) && IsFlag(d)
    ensures SimAgrees(SimWith(sim, d), made + [d])
  {
    SimulatedAppend(made, d);
    SensorsDiffer(sim, made, d);
    assert d in made + [d];
  }

  lemma AddSensorAgrees(sim: Sim, made: seq<NodeDef>, d: NodeDef)
    requires SimAgrees(sim, made) && d.browseName !in Names(made) && IsSimulated(d)
    ensures SimAgrees(SimWith(sim, d), made + [d])
  {
    SimulatedAppend(made, d);
    SensorsDiffer(sim, made, d);
    SensorAppend(sim.sensors, Sensor(Named(d.browseName), d.browseName, false, false));
    assert forall i :: 0 <= i < |sim.sensors| ==> sim.sensors[i] in sim.sensors;
  }

  lemma AddPlainAgrees(sim: Sim, made: seq<NodeDef>, d: NodeDef)
    requires SimAgrees(sim, made) && d.browseName !in Names(made) && !IsFlag(d) && !IsSimulated(d)
    ensures SimAgrees(SimWith(sim, d), made + [d])
  {
    SimulatedAppend(made, d);
    SensorsDiffer(sim, made, d);
  }

  lemma SimAddAgrees(sim: Sim, made: seq<NodeDef>, d: NodeDef)
    requires SimAgrees(sim, made) && d.browseName !in Names(made)
    ensures SimAgrees(SimWith(sim, d), made + [d])
  {
    if IsFlag(d) {
      AddFlagAgrees(sim, made, d);
    } else if IsSimulated(d) {
      AddSensorAgrees(sim, made, d);
    } else {
      AddPlainAgrees(sim, made, d);
    }
  }

  /** Creating a node that the server takes keeps everything in agreement. */
  lemma WithAgrees(s: State, made: seq<NodeDef>, d: NodeDef, willing: bool)
    requires Agrees(s, made) && |made| < MAP_MAX && d.browseName != "" && KnownKind(d) && CanCreate(s, d, willing)
    ensures d.browseName !in Names(made)
    ensures Agrees(With(s, d), made + [d])
  {
    ResolvesToTarget(s.slots, made, d.parentName);
    NamesAppend(made, d);
    MapAddAgrees(s.slots, made, d);
    TreeAddAgrees(s.server, made, d);
    SimAddAgrees(s.sim, made, d);
  }

  // ---------- deleting ----------

  /** A node no configured entry names as its parent has no children on the server either. */
  lemma ChildlessIsLeaf(server: map<string, NodeId>, made: seq<NodeDef>, name: string)
    requires TreeAgrees(server, made) && !HasChildren(made, name)
    ensures IsLeaf(server, name)
  {
    forall n | n in server ensures server[n] != Named(name) {
      var d :| d in made && d.browseName == n;
      var i :| 0 <= i < |made| && made[i] == d;
      assert made[i].parentName != name;
    }
  }

  lemma MapRemoveAgrees(slots: seq<Slot>, made: seq<NodeDef>, i: nat)
    requires MapAgrees(slots, made) && Distinct(made) && i < |made|
    ensures MapAgrees(MapRemove(slots, made[i].browseName), Drop(made, i))
    ensures slots[MapFind(slots, made[i].browseName)].id == Named(made[i].browseName)
  {
    var name := made[i].browseName;
    var t := MapRemove(slots, name);
    assert made[i] in made;
    NamesDrop(made, i);
    assert 0 <= MapFind(slots, name);
    UsedCountUpdate(slots, MapFind(slots, name), Free);
    MapFindIff(t, name);
    forall n ensures 0 <= MapFind(t, n) <==> n in Names(Drop(made, i)) {
      if n != name {
        MapRemoveFinds(slots, name, n);
      }
    }
  }

  lemma TreeRemoveAgrees(server: map<string, NodeId>, made: seq<NodeDef>, i: nat)
    requires TreeAgrees(server, made) && Distinct(made) && i < |made| && !HasChildren(made, made[i].browseName)
    ensures TreeAgrees(server - {made[i].browseName}, Drop(made, i))
  {
    var name := made[i].browseName;
    NamesDrop(made, i);
    ChildlessIsLeaf(server, made, name);
    RemoveLeaf(server, name);
    forall d | d in Drop(made, i)
      ensures server[d.browseName] == Objects || server[d.browseName] == Target(Names(Drop(made, i)), d.parentName)
    {
      assert d in made && d.browseName in Names(made);
      var j :| 0 <= j < |made| && made[j] == d;
      assert made[j].parentName != name;
    }
  }

  lemma SensorDrop(sensors: seq<Sensor>, name: string)
    requires forall i, j :: 0 <= i < j < |sensors| ==> sensors[i].name != sensors[j].name
    ensures var r := DropSensor(sensors, name);
      (forall i, j :: 0 <= i < j < |r| ==> r[i].name != r[j].name)
      && forall x :: x in r <==> x in sensors && x.name != name
  {
    var k := SensorAt(sensors, name);
    var r := DropSensor(sensors, name);
    if 0 <= k {
      assert forall i :: 0 <= i < |r| ==> r[i] == sensors[if i < k then i else i + 1];
      forall x | x in sensors && x.name != name ensures x in r {
        var i :| 0 <= i < |sensors| && sensors[i] == x;
        assert r[if i < k then i else i - 1] == x;
      }
    }
  }

  lemma SensorDropServes(sim: Sim, name: string)
    requires OwnNodes(sim) && ServesSensors(sim)
    ensures var t := sim.(sensors := DropSensor(sim.sensors, name), served := sim.served - {Named(name)});
      OwnNodes(t) && ServesSensors(t) && SensorNames(t.sensors) == SensorNames(sim.sensors) - {name}
  {
    SensorDrop(sim.sensors, name);
  }

  lemma SimulatedDrop(made: seq<NodeDef>, i: nat)
    requires Distinct(made) && i < |made|
    ensures SimulatedNames(Drop(made, i)) == SimulatedNames(made) - {made[i].browseName}
    ensures forall d :: d in made && d != made[i] ==> d in Drop(made, i)
    ensures forall d :: d in Drop(made, i) ==> d in made
  {
    NamesDrop(made, i);
    forall d | d in made && d != made[i] ensures d.browseName != made[i].browseName {
      var j :| 0 <= j < |made| && made[j] == d;
    }
  }

  lemma SimRemoveAgrees(sim: Sim, made: seq<NodeDef>, i: nat)
    requires SimAgrees(sim, made) && Distinct(made) && i < |made| && !IsFlag(made[i])
    ensures SimAgrees(sim.(sensors := DropSensor(sim.sensors, made[i].browseName),
                           served := sim.served - {Named(made[i].browseName)}), Drop(made, i))
  {
    SensorDropServes(sim, made[i].browseName);
    SimulatedDrop(made, i);
  }

  lemma LostIsName(slots: seq<Slot>, made: seq<NodeDef>, name: string)
    requires MapAgrees(slots, made) && name in Names(made)
    ensures Lost(slots, name, {}) == {name} && IdsOf(Lost(slots, name, {})) == {Named(name)}
  {
    assert 0 <= MapFind(slots, name);
    assert Lost(slots, name, {}) == {name};
    assert IdsOf({name}) == {Named(name)};
  }

  lemma WithoutParts(s: State, name: string)
    requires MapAgrees(s.slots, s.nodes) && 0 <= Find(s.nodes, name)
    ensures var t := Without(s, name, {});
      t.nodes == Drop(s.nodes, Find(s.nodes, name)) && t.slots == MapRemove(s.slots, name)
      && t.server == s.server - {name}
      && t.sim == s.sim.(sensors := DropSensor(s.sim.sensors, name), served := s.sim.served - {Named(name)})
  {
    LostIsName(s.slots, s.nodes, name);
  }

  lemma ProperDrop(made: seq<NodeDef>, i: nat)
    requires Proper(made) && i < |made|
    ensures Proper(Drop(made, i))
  {
    NamesDrop(made, i);
  }

  /** Deleting a configured node removes a leaf of the server's tree and nothing else, and keeps
      everything in agreement, also where parent names dangle or form a cycle. */
  lemma DeleteAgrees(s: State, name: string, gone: set<string>)
    requires InStep(s) && MayTakeAlong(s.server, name, gone)
    ensures InStep(Delete(s, name, gone))
    ensures DeleteStatus(s, name) == Good
        ==> IsLeaf(s.server, name) && name in s.server && Delete(s, name, gone).server == s.server - {name}
  {
    if DeleteStatus(s, name) == Good {
      var i := Find(s.nodes, name);
      assert s.nodes[i] in s.nodes;
      ChildlessIsLeaf(s.server, s.nodes, name);
      assert gone == {};
      WithoutParts(s, name);
      ProperDrop(s.nodes, i);
      MapRemoveAgrees(s.slots, s.nodes, i);
      TreeRemoveAgrees(s.server, s.nodes, i);
      SimRemoveAgrees(s.sim, s.nodes, i);
    }
  }

  /** The locked part of an add keeps everything in step below capacity, however stale the
      checks made before the lock are: the server rejects a name it already has. */
  lemma CommitAgrees(s: State, def: NodeDef, willing: bool)
    requires InStep(s) && |s.nodes| < MAX_NODES && def.browseName != "" && KnownKind(def)
    ensures InStep(Commit(s, def, willing))
  {
    if CanCreate(s, def, willing) {
      WithAgrees(s, s.nodes, def, willing);
    }
  }

  // ---------- the bound on climbing ----------

  /** In a tree no climb needs more steps than there are nodes. */
  lemma {:induction false} ReachesWithin(tree: map<string, NodeId>, id: NodeId, k: nat)
    requires Reaches(tree, id, k)
    ensures Reaches(tree, id, |tree|)
    decreases |tree|, k
  {
    if id != Objects {
      if j: nat :| j < k && Reaches(tree, id, j) {
        ReachesWithin(tree, id, j);
      } else {
        // The shortest climb from here meets `id` once, so the rest needs one node less.
        ReachesAvoiding(tree, tree[id.name], k - 1, id.name, k);
        ReachesWithin(tree - {id.name}, tree[id.name], k - 1);
        assert |tree - {id.name}| == |tree| - 1 by {
          assert (tree - {id.name}).Keys == tree.Keys - {id.name};
        }
        ReachesBack(tree, tree[id.name], |tree| - 1, id.name);
      }
    }
  }

  lemma {:induction false} ReachesAvoiding(tree: map<string, NodeId>, id: NodeId, k: nat, x: string, limit: nat)
    requires Reaches(tree, id, k) && k < limit && forall j: nat :: j < limit ==> !Reaches(tree, Named(x), j)
    ensures Reaches(tree - {x}, id, k)
    decreases k
  {
    if id != Objects {
      ReachesAvoiding(tree, tree[id.name], k - 1, x, limit);
    }
  }

  lemma {:induction false} ReachesBack(tree: map<string, NodeId>, id: NodeId, k: nat, x: string)
    requires Reaches(tree - {x}, id, k)
    ensures Reaches(tree, id, k)
    decreases k
  {
    if id != Objects {
      ReachesBack(tree, tree[id.name], k - 1, x);
    }
  }
}

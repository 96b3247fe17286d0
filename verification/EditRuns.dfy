/** What every edit keeps: the map entries stay within reach of the configuration in all runs,
    and below capacity all four structures agree in every interleaving of edits. */
module EditRuns {
  import opened Collections
  import opened ServerConfig
  import opened NodeTree
  import opened Simulation
  import opened AddressSpace

  // ---------- names under append and drop ----------

  lemma NamesAppend(nodes: seq<NodeDef>, d: NodeDef)
    ensures Names(nodes + [d]) == Names(nodes) + {d.browseName}
    ensures d.browseName !in Names(nodes) && Distinct(nodes) ==> Distinct(nodes + [d])
    ensures forall x :: x in nodes + [d] <==> x in nodes || x == d
  {
    forall i | 0 <= i < |nodes| ensures nodes[i].browseName in Names(nodes) { assert nodes[i] in nodes; }
    assert forall x :: x in nodes + [d] <==> x in nodes || x == d;
  }

  lemma NamesDrop(nodes: seq<NodeDef>, i: nat)
    requires i < |nodes| && Distinct(nodes)
    ensures Distinct(Drop(nodes, i))
    ensures Names(Drop(nodes, i)) == Names(nodes) - {nodes[i].browseName}
    ensures forall x :: x in Drop(nodes, i) <==> x in nodes && x.browseName != nodes[i].browseName
  {
    var r := Drop(nodes, i);
    assert forall k :: 0 <= k < |r| ==> r[k] == nodes[if k < i then k else k + 1];
    forall x ensures x in r <==> x in nodes && x.browseName != nodes[i].browseName {
      if x in nodes && x.browseName != nodes[i].browseName {
        var k :| 0 <= k < |nodes| && nodes[k] == x;
        assert r[if k < i then k else k - 1] == x;
      }
    }
  }

  // ---------- the map in every run ----------

  ghost function UsedCount(slots: seq<Slot>): (n: nat)
    ensures n <= |slots|
  {
    if slots == [] then 0 else UsedCount(slots[1..]) + (if slots[0].Used? then 1 else 0)
  }

  lemma {:induction false} UsedCountUpdate(slots: seq<Slot>, i: nat, x: Slot)
    requires i < |slots|
    ensures UsedCount(slots[i := x])
         == UsedCount(slots) - (if slots[i].Used? then 1 else 0) + (if x.Used? then 1 else 0)
  {
    if i == 0 {
      assert slots[i := x][1..] == slots[1..];
    } else {
      assert slots[i := x][1..] == slots[1..][i - 1 := x];
      UsedCountUpdate(slots[1..], i - 1, x);
    }
  }

  lemma {:induction false} UsedCountFull(slots: seq<Slot>)
    requires FirstFree(slots) < 0
    ensures UsedCount(slots) == |slots|
  {
    if slots != [] {
      UsedCountFull(slots[1..]);
    }
  }

  lemma MapFindIff(slots: seq<Slot>, name: string)
    ensures 0 <= MapFind(slots, name) <==> exists i :: 0 <= i < |slots| && slots[i].Used? && slots[i].name == name
  {
  }

  lemma MapAddFinds(slots: seq<Slot>, name: string, id: NodeId, other: string)
    ensures 0 <= FirstFree(slots)
        ==> (0 <= MapFind(MapAdd(slots, name, id), other) <==> other == name || 0 <= MapFind(slots, other))
    ensures 0 <= MapFind(slots, other) ==> 0 <= MapFind(MapAdd(slots, name, id), other)
    ensures UsedCount(MapAdd(slots, name, id)) == UsedCount(slots) + (if FirstFree(slots) < 0 then 0 else 1)
    ensures |MapAdd(slots, name, id)| == |slots|
  {
    var i, t := FirstFree(slots), MapAdd(slots, name, id);
    if 0 <= i {
      UsedCountUpdate(slots, i, Used(name, id));
      MapFindIff(slots, other);
      MapFindIff(t, other);
      assert t[i].name == name;
      if 0 <= MapFind(slots, other) { assert t[MapFind(slots, other)] == slots[MapFind(slots, other)]; }
      if 0 <= MapFind(t, other) && other != name { assert slots[MapFind(t, other)] == t[MapFind(t, other)]; }
    }
  }

  lemma MapRemoveFinds(slots: seq<Slot>, name: string, other: string)
    requires other != name
    ensures 0 <= MapFind(MapRemove(slots, name), other) <==> 0 <= MapFind(slots, other)
    ensures UsedCount(MapRemove(slots, name)) == UsedCount(slots) - (if MapFind(slots, name) < 0 then 0 else 1)
    ensures |MapRemove(slots, name)| == |slots|
  {
    var i, t := MapFind(slots, name), MapRemove(slots, name);
    if 0 <= i {
      UsedCountUpdate(slots, i, Free);
      MapFindIff(slots, other);
      MapFindIff(t, other);
      if 0 <= MapFind(slots, other) { assert t[MapFind(slots, other)] == slots[MapFind(slots, other)]; }
      if 0 <= MapFind(t, other) { assert slots[MapFind(t, other)] == t[MapFind(t, other)]; }
    }
  }

  // ---------- names with their multiplicity ----------

  function NameList(nodes: seq<NodeDef>): (names: seq<string>)
    ensures |names| == |nodes| && forall i :: 0 <= i < |names| ==> names[i] == nodes[i].browseName
  {
    seq(|nodes|, i requires 0 <= i < |nodes| => nodes[i].browseName)
  }

  function NameOf(slot: Slot): multiset<string> {
    if slot.Used? then multiset{slot.name} else multiset{}
  }

  /** The names in the map, each as often as it has a slot. */
  function UsedNames(slots: seq<Slot>): multiset<string> {
    if slots == [] then multiset{} else NameOf(slots[0]) + UsedNames(slots[1..])
  }

  lemma AddToBoth(first: multiset<string>, later: multiset<string>, before: multiset<string>,
                  rest: multiset<string>, added: multiset<string>)
    requires later + before == rest + added
    ensures (first + later) + before == (first + rest) + added
  {
    forall n ensures ((first + later) + before)[n] == ((first + rest) + added)[n] {
      assert (later + before)[n] == (rest + added)[n];
    }
  }

  lemma {:induction false} UsedNamesUpdate(slots: seq<Slot>, i: nat, x: Slot)
    requires i < |slots|
    ensures UsedNames(slots[i := x]) + NameOf(slots[i]) == UsedNames(slots) + NameOf(x)
  {
    var first, rest := NameOf(slots[0]), slots[1..];
    if i == 0 {
      assert slots[i := x][1..] == rest;
    } else {
      var later := rest[i - 1 := x];
      assert slots[i := x][1..] == later && slots[i := x][0] == slots[0];
      UsedNamesUpdate(rest, i - 1, x);
      AddToBoth(first, UsedNames(later), NameOf(slots[i]), UsedNames(rest), NameOf(x));
    }
  }

  lemma {:induction false} UsedNamesCount(slots: seq<Slot>)
    ensures |UsedNames(slots)| == UsedCount(slots)
  {
    if slots != [] {
      UsedNamesCount(slots[1..]);
    }
  }

  lemma {:induction false} UsedNamesFound(slots: seq<Slot>, name: string)
    ensures name in UsedNames(slots) <==> 0 <= MapFind(slots, name)
  {
    if slots != [] {
      UsedNamesFound(slots[1..], name);
      MapFindIff(slots, name);
      MapFindIff(slots[1..], name);
      if 0 <= MapFind(slots[1..], name) {
        assert slots[MapFind(slots[1..], name) + 1].name == name;
      }
      if 0 < MapFind(slots, name) {
        assert slots[1..][MapFind(slots, name) - 1].name == name;
      }
    }
  }

  lemma NamesInMap(slots: seq<Slot>, nodes: seq<NodeDef>)
    requires multiset(NameList(nodes)) <= UsedNames(slots)
    ensures forall d :: d in nodes ==> 0 <= MapFind(slots, d.browseName)
  {
    forall d | d in nodes ensures 0 <= MapFind(slots, d.browseName) {
      var i :| 0 <= i < |nodes| && nodes[i] == d;
      assert NameList(nodes)[i] in multiset(NameList(nodes));
      UsedNamesFound(slots, d.browseName);
    }
  }

  lemma {:induction false} DistinctOnce(nodes: seq<NodeDef>, name: string)
    requires Distinct(nodes)
    ensures multiset(NameList(nodes))[name] <= 1
  {
    if nodes != [] {
      var init, last := nodes[..|nodes| - 1], nodes[|nodes| - 1];
      DistinctOnce(init, name);
      assert NameList(nodes) == NameList(init) + [last.browseName];
      assert last.browseName !in NameList(init);
    }
  }

  /** With distinct names it suffices that each is found. */
  lemma DistinctInMap(slots: seq<Slot>, nodes: seq<NodeDef>)
    requires Distinct(nodes) && forall d :: d in nodes ==> 0 <= MapFind(slots, d.browseName)
    ensures multiset(NameList(nodes)) <= UsedNames(slots)
  {
    forall n ensures multiset(NameList(nodes))[n] <= UsedNames(slots)[n] {
      DistinctOnce(nodes, n);
      if n in multiset(NameList(nodes)) {
        assert n in NameList(nodes);
        var i :| 0 <= i < |nodes| && NameList(nodes)[i] == n;
        assert nodes[i] in nodes;
        UsedNamesFound(slots, n);
      }
    }
  }

  // ---------- the map in every run ----------

  /** Every entry of the configuration has a slot of the map to itself, and the map holds at most
      four more. */
  ghost predicate Tracked(s: State) {
    |s.nodes| <= MAX_NODES && |s.slots| == MAP_MAX
    && UsedCount(s.slots) <= |s.nodes| + 4
    && multiset(NameList(s.nodes)) <= UsedNames(s.slots)
  }

  /** Recording a node never finds the map full. */
  lemma RoomToRecord(s: State)
    requires Tracked(s) && |s.nodes| < MAX_NODES
    ensures 0 <= FirstFree(s.slots)
  {
    if FirstFree(s.slots) < 0 {
      UsedCountFull(s.slots);
    }
  }

  lemma MapAddNames(slots: seq<Slot>, name: string, id: NodeId)
    ensures UsedNames(MapAdd(slots, name, id))
         == UsedNames(slots) + if FirstFree(slots) < 0 then multiset{} else multiset{name}
    ensures UsedCount(MapAdd(slots, name, id)) == UsedCount(slots) + if FirstFree(slots) < 0 then 0 else 1
  {
    if 0 <= FirstFree(slots) {
      UsedNamesUpdate(slots, FirstFree(slots), Used(name, id));
      UsedCountUpdate(slots, FirstFree(slots), Used(name, id));
    }
  }

  lemma MapRemoveNames(slots: seq<Slot>, name: string)
    requires 0 <= MapFind(slots, name)
    ensures UsedNames(MapRemove(slots, name)) == UsedNames(slots) - multiset{name}
    ensures UsedCount(MapRemove(slots, name)) == UsedCount(slots) - 1
  {
    var i := MapFind(slots, name);
    UsedNamesUpdate(slots, i, Free);
    UsedCountUpdate(slots, i, Free);
    assert UsedNames(slots[i := Free]) + multiset{name} - multiset{name} == UsedNames(slots[i := Free]);
  }

  lemma CommitKeepsTracked(s: State, def: NodeDef, willing: bool)
    requires Tracked(s)
    ensures Tracked(Commit(s, def, willing))
    ensures CanCreate(s, def, willing) && |s.nodes| < MAX_NODES ==> 0 <= FirstFree(s.slots)
  {
    if CanCreate(s, def, willing) {
      MapAddNames(s.slots, def.browseName, Named(def.browseName));
      assert NameList(s.nodes + [def]) == NameList(s.nodes) + [def.browseName];
      if |s.nodes| < MAX_NODES {
        RoomToRecord(s);
      }
    }
  }

  lemma DropNames(nodes: seq<NodeDef>, i: nat)
    requires i < |nodes|
    ensures multiset(NameList(nodes)) == multiset(NameList(Drop(nodes, i))) + multiset{nodes[i].browseName}
  {
    var names := NameList(nodes);
    assert names == names[..i] + [names[i]] + names[i + 1..];
    assert NameList(Drop(nodes, i)) == names[..i] + names[i + 1..];
  }

  lemma DeleteKeepsTracked(s: State, name: string, gone: set<string>)
    requires Tracked(s)
    ensures Tracked(Delete(s, name, gone))
  {
    if DeleteStatus(s, name) == Good {
      var i := Find(s.nodes, name);
      DropNames(s.nodes, i);
      UsedNamesFound(s.slots, name);
      assert name in multiset(NameList(s.nodes));
      MapRemoveNames(s.slots, name);
    }
  }

  /** The used slots whose name is not configured. */
  ghost function Strays(s: State): set<int> {
    set i | 0 <= i < |s.slots| && s.slots[i].Used? && s.slots[i].name !in Names(s.nodes)
  }

  ghost function UsedIndices(slots: seq<Slot>): set<int> {
    set i | 0 <= i < |slots| && slots[i].Used?
  }

  lemma UsedIndicesAppend(slots: seq<Slot>, x: Slot)
    ensures UsedIndices(slots + [x]) == UsedIndices(slots) + (if x.Used? then {|slots|} else {})
    ensures |slots| !in UsedIndices(slots)
  {
  }

  lemma {:induction false} UsedCountIsCardinality(slots: seq<Slot>)
    ensures |UsedIndices(slots)| == UsedCount(slots)
  {
    if slots != [] {
      var init, last := slots[..|slots| - 1], slots[|slots| - 1];
      UsedCountIsCardinality(init);
      UsedCountAppend(init, last);
      UsedIndicesAppend(init, last);
      assert slots == init + [last];
    }
  }

  lemma {:induction false} UsedCountAppend(slots: seq<Slot>, x: Slot)
    ensures UsedCount(slots + [x]) == UsedCount(slots) + (if x.Used? then 1 else 0)
  {
    if slots == [] {
      assert (slots + [x])[1..] == [];
    } else {
      assert (slots + [x])[1..] == slots[1..] + [x];
      UsedCountAppend(slots[1..], x);
    }
  }

  ghost function SlotsNamed(slots: seq<Slot>, names: set<string>): set<int> {
    set i | 0 <= i < |slots| && slots[i].Used? && slots[i].name in names
  }

  lemma LastIsNew(nodes: seq<NodeDef>)
    requires nodes != [] && Distinct(nodes)
    ensures var init, last := nodes[..|nodes| - 1], nodes[|nodes| - 1];
      Distinct(init) && nodes == init + [last] && last.browseName !in Names(init)
      && Names(nodes) == Names(init) + {last.browseName}
  {
    var init, last := nodes[..|nodes| - 1], nodes[|nodes| - 1];
    assert nodes == init + [last];
    NamesAppend(init, last);
    assert forall j :: 0 <= j < |init| ==> nodes[j] == init[j];
  }

  lemma {:induction false} DistinctNames(nodes: seq<NodeDef>)
    requires Distinct(nodes)
    ensures |Names(nodes)| == |nodes|
  {
    if nodes != [] {
      LastIsNew(nodes);
      DistinctNames(nodes[..|nodes| - 1]);
    }
  }

  lemma SlotsNamedAppend(slots: seq<Slot>, x: Slot, names: set<string>)
    ensures SlotsNamed(slots + [x], names)
         == SlotsNamed(slots, names) + if x.Used? && x.name in names then {|slots|} else {}
    ensures |slots| !in SlotsNamed(slots, names)
  {
  }

  lemma {:induction false} UsedNamesAppend(slots: seq<Slot>, x: Slot)
    ensures UsedNames(slots + [x]) == UsedNames(slots) + NameOf(x)
  {
    if slots == [] {
      assert (slots + [x])[1..] == [];
    } else {
      assert (slots + [x])[1..] == slots[1..] + [x];
      UsedNamesAppend(slots[1..], x);
    }
  }

  /** Names that have a slot each have as many slots as there are names. */
  lemma {:induction false} SlotsForNames(slots: seq<Slot>, some: multiset<string>, names: set<string>)
    requires some <= UsedNames(slots) && forall n :: n in some ==> n in names
    ensures |some| <= |SlotsNamed(slots, names)|
  {
    if slots != [] {
      var init, last := slots[..|slots| - 1], slots[|slots| - 1];
      assert slots == init + [last];
      UsedNamesAppend(init, last);
      SlotsNamedAppend(init, last, names);
      var rest := some - NameOf(last);
      SlotsForNames(init, rest, names);
    }
  }

  /** At most four map entries are not in the configuration. */
  lemma AtMostFourStrays(s: State)
    requires Tracked(s)
    ensures |Strays(s)| <= 4
  {
    var names := NameList(s.nodes);
    forall n | n in multiset(names) ensures n in Names(s.nodes) {
      var i :| 0 <= i < |names| && names[i] == n;
      assert s.nodes[i] in s.nodes;
    }
    UsedCountIsCardinality(s.slots);
    SlotsForNames(s.slots, multiset(names), Names(s.nodes));
    assert UsedIndices(s.slots) == SlotsNamed(s.slots, Names(s.nodes)) + Strays(s);
  }
}

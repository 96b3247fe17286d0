/** The server's configuration: node definitions, the accepted names, and the JSON tree it is
    saved to and loaded from.  Characters stand for bytes; no C string here holds a NUL. */
module ServerConfig {
  import opened Wrappers

  const MAX_NODES := 256
  const NAME_MAX := 64
  const DISPLAY_MAX := 128
  const NAMESPACE_MAX := 256
  const KIND_MAX := 16
  const ROLE_MAX := 32
  const FOLDER := "folder"
  const VARIABLE := "variable"
  const ROLE_SIMULATION := "simulationEnabled"

  datatype DataType = Boolean | Int32 | Double | String

  datatype NodeDef = NodeDef(
    kind: string, browseName: string, displayName: string, parentName: string,
    dataType: DataType, simulation: bool, role: string)

  datatype Config = Config(namespaceUri: string, nodes: seq<NodeDef>)

  /** What `snprintf` leaves in a buffer of `cap` bytes. */
  function Clip(s: string, cap: nat): (r: string)
    requires 0 < cap
    ensures |r| < cap && r <= s
    ensures |s| < cap ==> r == s
    ensures cap <= |s| ==> |r| == cap - 1
  {
    if |s| < cap then s else s[..cap - 1]
  }

  // ---------- names ----------

  predicate NameChar(c: char) {
    'a' <= c <= 'z' || 'A' <= c <= 'Z' || '0' <= c <= '9' || c == '_'
  }

  predicate ValidName(name: string) {
    0 < |name| < NAME_MAX && forall c :: c in name ==> NameChar(c)
  }

  method ValidateBrowseName(name: string) returns (ok: bool)
    ensures ok <==> ValidName(name)
  {
    if |name| == 0 || |name| >= NAME_MAX {
      return false;
    }
    var i := 0;
    while i < |name|
      invariant 0 <= i <= |name|
      invariant forall k :: 0 <= k < i ==> NameChar(name[k])
    {
      var c := name[i];
      if !(('a' <= c <= 'z') || ('A' <= c <= 'Z') || ('0' <= c <= '9') || c == '_') {
        assert c in name && !NameChar(c);
        return false;
      }
      i := i + 1;
    }
    return true;
  }

  // ---------- data types ----------

  function TypeName(dt: DataType): string {
    match dt
    case Boolean => "Boolean"
    case Int32 => "Int32"
    case Double => "Double"
    case String => "String"
  }

  function TypeOf(s: string): Option<DataType> {
    if s == "Boolean" then Some(Boolean)
    else if s == "Int32" then Some(Int32)
    else if s == "Double" then Some(Double)
    else if s == "String" then Some(String)
    else None
  }

  // ---------- the JSON tree ----------

  datatype Json =
    | JString(text: string)
    | JTrue
    | JOther
    | JArray(items: seq<Json>)
    | JObject(fields: seq<(string, Json)>)

  /** The first field of that name, as the parser library's lookup returns it. */
  function Lookup(fields: seq<(string, Json)>, key: string): Option<Json> {
    if fields == [] then None
    else if fields[0].0 == key then Some(fields[0].1)
    else Lookup(fields[1..], key)
  }

  function Get(item: Json, key: string): Option<Json> {
    if item.JObject? then Lookup(item.fields, key) else None
  }

  /** The text of a field that is a string, clipped to the struct's buffer. */
  function TextOf(field: Option<Json>, cap: nat): string
    requires 0 < cap
  {
    if field.Some? && field.value.JString? then Clip(field.value.text, cap) else ""
  }

  predicate IsText(field: Option<Json>) {
    field.Some? && field.value.JString?
  }

  function ParseNode(item: Json): Option<NodeDef> {
    var kind, browse, display := Get(item, "kind"), Get(item, "browseName"), Get(item, "displayName");
    if !IsText(kind) || !IsText(browse) || !IsText(display) then None
    else
      var dtype := Get(item, "dataType");
      var dt := if IsText(dtype) && TypeOf(dtype.value.text).Some? then TypeOf(dtype.value.text).value else Boolean;
      Some(NodeDef(
        TextOf(kind, KIND_MAX), TextOf(browse, NAME_MAX), TextOf(display, DISPLAY_MAX),
        TextOf(Get(item, "parentBrowseName"), NAME_MAX), dt,
        Get(item, "simulation") == Some(JTrue), TextOf(Get(item, "role"), ROLE_MAX)))
  }

  function NodeToJson(n: NodeDef): Json {
    JObject(
      [("kind", JString(n.kind)), ("browseName", JString(n.browseName)),
       ("displayName", JString(n.displayName)), ("parentBrowseName", JString(n.parentName))]
      + (if n.kind == VARIABLE then [("dataType", JString(TypeName(n.dataType)))] else [])
      + (if n.simulation then [("simulation", JTrue)] else [])
      + (if n.role != "" then [("role", JString(n.role))] else []))
  }

  /** The entry fits the fixed buffers of its struct. */
  predicate Fits(n: NodeDef) {
    |n.kind| < KIND_MAX && |n.browseName| < NAME_MAX && |n.displayName| < DISPLAY_MAX
    && |n.parentName| < NAME_MAX && |n.role| < ROLE_MAX
  }

  /** What of an entry the file keeps: the data type is written for variables only. */
  function Stored(n: NodeDef): NodeDef {
    if n.kind == VARIABLE then n else n.(dataType := Boolean)
  }

  lemma LookupSkips(a: seq<(string, Json)>, b: seq<(string, Json)>, key: string)
    requires forall f :: f in a ==> f.0 != key
    ensures Lookup(a + b, key) == Lookup(b, key)
  {
    if a == [] {
      assert a + b == b;
    } else {
      assert (a + b)[0] == a[0] && (a + b)[1..] == a[1..] + b;
      LookupSkips(a[1..], b, key);
    }
  }

  lemma LookupKeeps(a: seq<(string, Json)>, b: seq<(string, Json)>, key: string)
    requires Lookup(a, key).Some?
    ensures Lookup(a + b, key) == Lookup(a, key)
  {
    assert (a + b)[0] == a[0] && (a + b)[1..] == a[1..] + b;
    if a[0].0 != key {
      LookupKeeps(a[1..], b, key);
    }
  }

  lemma LookupAt(fields: seq<(string, Json)>, i: nat, key: string)
    requires i < |fields| && fields[i].0 == key
    requires forall k :: 0 <= k < i ==> fields[k].0 != key
    ensures Lookup(fields, key) == Some(fields[i].1)
  {
    assert fields == fields[..i] + fields[i..];
    LookupSkips(fields[..i], fields[i..], key);
  }

  function RequiredFields(n: NodeDef): seq<(string, Json)> {
    [("kind", JString(n.kind)), ("browseName", JString(n.browseName)),
     ("displayName", JString(n.displayName)), ("parentBrowseName", JString(n.parentName))]
  }

  lemma WrittenRequired(n: NodeDef, rest: seq<(string, Json)>)
    ensures Lookup(RequiredFields(n) + rest, "kind") == Some(JString(n.kind))
    ensures Lookup(RequiredFields(n) + rest, "browseName") == Some(JString(n.browseName))
    ensures Lookup(RequiredFields(n) + rest, "displayName") == Some(JString(n.displayName))
    ensures Lookup(RequiredFields(n) + rest, "parentBrowseName") == Some(JString(n.parentName))
  {
    var a := RequiredFields(n);
    LookupAt(a, 1, "browseName");
    LookupAt(a, 2, "displayName");
    LookupAt(a, 3, "parentBrowseName");
    LookupKeeps(a, rest, "kind");
    LookupKeeps(a, rest, "browseName");
    LookupKeeps(a, rest, "displayName");
    LookupKeeps(a, rest, "parentBrowseName");
  }

  /** An optional field, when it is written. */
  function Optional(written: bool, key: string, value: Json): seq<(string, Json)> {
    if written then [(key, value)] else []
  }

  lemma FoundIfWritten(before: seq<(string, Json)>, written: bool, key: string, value: Json, rest: seq<(string, Json)>)
    requires (forall f :: f in before ==> f.0 != key) && forall f :: f in rest ==> f.0 != key
    ensures Lookup(before + (Optional(written, key, value) + rest), key) == if written then Some(value) else None
  {
    LookupSkips(before, Optional(written, key, value) + rest, key);
    if !written {
      LookupSkips(rest, [], key);
      assert rest + [] == rest && [] + rest == rest;
    }
  }

  lemma Regroup<T>(a: seq<T>, b: seq<T>, c: seq<T>, d: seq<T>)
    ensures a + b + c + d == a + (b + (c + d)) == (a + b) + (c + d) == (a + b + c) + (d + [])
  {
  }

  /** Every field of a written entry is found again, and the optional ones only when written. */
  lemma WrittenFields(n: NodeDef)
    ensures Get(NodeToJson(n), "kind") == Some(JString(n.kind))
    ensures Get(NodeToJson(n), "browseName") == Some(JString(n.browseName))
    ensures Get(NodeToJson(n), "displayName") == Some(JString(n.displayName))
    ensures Get(NodeToJson(n), "parentBrowseName") == Some(JString(n.parentName))
    ensures Get(NodeToJson(n), "dataType")
         == if n.kind == VARIABLE then Some(JString(TypeName(n.dataType))) else None
    ensures Get(NodeToJson(n), "simulation") == if n.simulation then Some(JTrue) else None
    ensures Get(NodeToJson(n), "role") == if n.role != "" then Some(JString(n.role)) else None
  {
    var a, all := RequiredFields(n), NodeToJson(n).fields;
    var b := Optional(n.kind == VARIABLE, "dataType", JString(TypeName(n.dataType)));
    var c := Optional(n.simulation, "simulation", JTrue);
    var d := Optional(n.role != "", "role", JString(n.role));
    assert all == a + b + c + d;
    Regroup(a, b, c, d);
    WrittenRequired(n, b + (c + d));
    FoundIfWritten(a, n.kind == VARIABLE, "dataType", JString(TypeName(n.dataType)), c + d);
    FoundIfWritten(a + b, n.simulation, "simulation", JTrue, d);
    FoundIfWritten(a + b + c, n.role != "", "role", JString(n.role), []);
  }

  /** Reading back a written entry gives what the file keeps of it. */
  lemma ParseWritten(n: NodeDef)
    requires Fits(n)
    ensures ParseNode(NodeToJson(n)) == Some(Stored(n))
  {
    WrittenFields(n);
    assert TypeOf(TypeName(n.dataType)) == Some(n.dataType);
  }

  // ---------- defaults, save and load ----------

  function Entry(kind: string, name: string, display: string, parent: string, simulation: bool, role: string): NodeDef {
    NodeDef(kind, name, display, parent, Boolean, simulation, role)
  }

  const DEFAULT_NAMESPACE := "urn:binary-sensors-demo"

  function Defaults(): Config {
    Config(DEFAULT_NAMESPACE,
           [Entry(FOLDER, "Sensors", "Sensors", "", false, ""),
            Entry(VARIABLE, "Sensor1", "Sensor 1", "Sensors", true, ""),
            Entry(VARIABLE, "Sensor2", "Sensor 2", "Sensors", true, ""),
            Entry(VARIABLE, "Sensor3", "Sensor 3", "Sensors", true, ""),
            Entry(VARIABLE, "Sensor4", "Sensor 4", "Sensors", true, ""),
            Entry(VARIABLE, "Pi1_InductionSwitch1", "Induction Switch 1 (Pi 1)", "Sensors", false, ""),
            Entry(VARIABLE, "SimulationEnabled", "Simulation Enabled", "Sensors", false, ROLE_SIMULATION)])
  }

  /** The tree that a save writes. */
  function ToJson(cfg: Config): Json {
    JObject([("namespaceUri", JString(cfg.namespaceUri)),
             ("nodes", JArray(seq(|cfg.nodes|, i requires 0 <= i < |cfg.nodes| => NodeToJson(cfg.nodes[i]))))])
  }

  /** The parsable entries among `items`, in order. */
  function Parsed(items: seq<Json>): seq<NodeDef> {
    if items == [] then []
    else
      var init := Parsed(items[..|items| - 1]);
      match ParseNode(items[|items| - 1])
      case Some(n) => init + [n]
      case None => init
  }

  function UpTo(s: seq<NodeDef>, cap: nat): seq<NodeDef> {
    if |s| <= cap then s else s[..cap]
  }

  /** The configuration file as the loader meets it: absent or empty, not JSON, or a tree. */
  datatype File = Absent | Garbage | Tree(root: Json)

  /** The configuration a load produces, if it succeeds. */
  function Load(file: File): Option<Config> {
    match file
    case Absent => Some(Defaults())
    case Garbage => None
    case Tree(root) =>
      var ns := Get(root, "namespaceUri");
      var arr := Get(root, "nodes");
      var uri := if IsText(ns) then TextOf(ns, NAMESPACE_MAX) else DEFAULT_NAMESPACE;
      var nodes :=
        if arr.Some? && arr.value.JArray? then UpTo(Parsed(arr.value.items), MAX_NODES)
        else Defaults().nodes;
      Some(if nodes == [] then Defaults() else Config(uri, nodes))
  }

  predicate FitsAll(cfg: Config) {
    |cfg.namespaceUri| < NAMESPACE_MAX && |cfg.nodes| <= MAX_NODES
    && forall i :: 0 <= i < |cfg.nodes| ==> Fits(cfg.nodes[i])
  }

  function StoredNodes(nodes: seq<NodeDef>): (r: seq<NodeDef>)
    ensures |r| == |nodes| && forall i :: 0 <= i < |r| ==> r[i] == Stored(nodes[i])
  {
    seq(|nodes|, i requires 0 <= i < |nodes| => Stored(nodes[i]))
  }

  lemma {:induction false} ParsedWritten(nodes: seq<NodeDef>, items: seq<Json>)
    requires forall i :: 0 <= i < |nodes| ==> Fits(nodes[i])
    requires |items| == |nodes| && forall i :: 0 <= i < |nodes| ==> items[i] == NodeToJson(nodes[i])
    ensures Parsed(items) == StoredNodes(nodes)
  {
    var n := |nodes|;
    if n > 0 {
      ParsedWritten(nodes[..n - 1], items[..n - 1]);
      ParseWritten(nodes[n - 1]);
      assert StoredNodes(nodes) == StoredNodes(nodes[..n - 1]) + [Stored(nodes[n - 1])];
    }
  }

  /** Loading what was saved gives the saved entries back, except that an empty list of nodes
      comes back as the defaults, its namespace included. */
  lemma LoadSaved(cfg: Config)
    requires FitsAll(cfg)
    ensures Load(Tree(ToJson(cfg)))
         == Some(if cfg.nodes == [] then Defaults() else Config(cfg.namespaceUri, StoredNodes(cfg.nodes)))
  {
    var fields := ToJson(cfg).fields;
    LookupAt(fields, 0, "namespaceUri");
    LookupAt(fields, 1, "nodes");
    ParsedWritten(cfg.nodes, fields[1].1.items);
  }

  /** Save and load undo each other exactly when there is at least one node and no node other
      than a variable carries a data type of its own. */
  lemma LoadSavedIsIdentity(cfg: Config)
    requires FitsAll(cfg)
    ensures Load(Tree(ToJson(cfg))) == Some(cfg)
       <==> cfg.nodes != [] && forall i :: 0 <= i < |cfg.nodes| ==>
         cfg.nodes[i].kind == VARIABLE || cfg.nodes[i].dataType == Boolean
  {
    LoadSaved(cfg);
    if cfg.nodes != [] && Load(Tree(ToJson(cfg))) == Some(cfg) {
      forall i | 0 <= i < |cfg.nodes| ensures cfg.nodes[i].kind == VARIABLE || cfg.nodes[i].dataType == Boolean {
        assert StoredNodes(cfg.nodes)[i] == cfg.nodes[i];
      }
    }
    if cfg.nodes != [] && forall i :: 0 <= i < |cfg.nodes| ==>
      cfg.nodes[i].kind == VARIABLE || cfg.nodes[i].dataType == Boolean {
      assert StoredNodes(cfg.nodes) == cfg.nodes;
    }
  }

  lemma {:induction false} ParsedFits(items: seq<Json>)
    ensures forall n :: n in Parsed(items) ==> Fits(n)
  {
    if items != [] {
      ParsedFits(items[..|items| - 1]);
    }
  }

  /** Whatever the file holds, what is loaded fits the structs, is not empty, and survives the
      next save and load up to the data types of folders. */
  lemma LoadedFits(file: File)
    requires Load(file).Some?
    ensures FitsAll(Load(file).value) && Load(file).value.nodes != []
  {
    if file.Tree? {
      var arr := Get(file.root, "nodes");
      if arr.Some? && arr.value.JArray? {
        ParsedFits(arr.value.items);
        assert forall n :: n in UpTo(Parsed(arr.value.items), MAX_NODES) ==> n in Parsed(arr.value.items);
      }
    }
  }

  // ---------- the loops of the source ----------

  /** The loader's loop: parse entry after entry into the next free element, stop when full. */
  method ParseNodes(items: seq<Json>, nodes: array<NodeDef>) returns (count: nat)
    requires nodes.Length == MAX_NODES
    modifies nodes
    ensures count <= MAX_NODES
    ensures nodes[..count] == UpTo(Parsed(items), MAX_NODES)
  {
    count := 0;
    var i := 0;
    assert items[..0] == [];
    while i < |items|
      invariant 0 <= i <= |items| && count <= MAX_NODES
      invariant nodes[..count] == UpTo(Parsed(items[..i]), MAX_NODES)
      invariant count < MAX_NODES ==> nodes[..count] == Parsed(items[..i])
    {
      if count >= MAX_NODES {
        ParsedGrows(items, i);
        return;
      }
      assert items[..i + 1][..i] == items[..i] && items[..i + 1][i] == items[i];
      var n := ParseNode(items[i]);
      if n.Some? {
        nodes[count] := n.value;
        count := count + 1;
      }
      i := i + 1;
    }
    assert items[..i] == items;
  }

  lemma {:induction false} ParsedGrows(items: seq<Json>, i: nat)
    requires i <= |items|
    ensures Parsed(items[..i]) <= Parsed(items)
    decreases |items|
  {
    if i == |items| {
      assert items[..i] == items;
    } else {
      var init := items[..|items| - 1];
      assert init[..i] == items[..i];
      ParsedGrows(init, i);
    }
  }

  /** Append an entry, clipping each text to its buffer; a full table ignores it. */
  method AddNode(nodes: array<NodeDef>, count: nat, kind: string, name: string, display: string,
                 parent: string, dt: DataType, simulation: bool, role: Option<string>)
    returns (newCount: nat)
    requires nodes.Length == MAX_NODES && count <= MAX_NODES
    modifies nodes
    ensures newCount <= MAX_NODES
    ensures nodes[..newCount]
         == if count == MAX_NODES then old(nodes[..count])
            else old(nodes[..count])
                 + [NodeDef(Clip(kind, KIND_MAX), Clip(name, NAME_MAX), Clip(display, DISPLAY_MAX),
                   Clip(parent, NAME_MAX),
                            dt, simulation, if role.Some? then Clip(role.value, ROLE_MAX) else "")]
  {
    if count >= MAX_NODES {
      return count;
    }
    nodes[count] := NodeDef(
      Clip(kind, KIND_MAX), Clip(name, NAME_MAX), Clip(display, DISPLAY_MAX), Clip(parent, NAME_MAX),
      dt, simulation, if role.Some? then Clip(role.value, ROLE_MAX) else "");
    newCount := count + 1;
  }

  lemma DefaultSensor(i: nat)
    requires 1 <= i <= 4
    ensures Defaults().nodes[i]
         == Entry(VARIABLE, "Sensor" + ['0' + i as char], "Sensor " + ['0' + i as char], "Sensors", true, "")
  {
    assert "Sensor1" == "Sensor" + ['1'] && "Sensor 1" == "Sensor " + ['1'];
    assert "Sensor2" == "Sensor" + ['2'] && "Sensor 2" == "Sensor " + ['2'];
    assert "Sensor3" == "Sensor" + ['3'] && "Sensor 3" == "Sensor " + ['3'];
    assert "Sensor4" == "Sensor" + ['4'] && "Sensor 4" == "Sensor " + ['4'];
    assert '0' + 1 as char == '1' && '0' + 2 as char == '2' && '0' + 3 as char == '3' && '0' + 4 as char == '4';
  }

  /** Seeding leaves exactly the default nodes in the table. */
  method SeedDefaults(nodes: array<NodeDef>) returns (uri: string, count: nat)
    requires nodes.Length == MAX_NODES
    modifies nodes
    ensures count <= MAX_NODES && Config(uri, nodes[..count]) == Defaults()
  {
    uri := Clip("urn:binary-sensors-demo", NAMESPACE_MAX);
    count := AddNode(nodes, 0, FOLDER, "Sensors", "Sensors", "", Boolean, false, None);
    var i := 1;
    while i <= 4
      invariant 1 <= i <= 5 && count == i
      invariant nodes[..count] == Defaults().nodes[..i]
    {
      var digit := ['0' + i as char];
      DefaultSensor(i);
      count := AddNode(nodes, count, VARIABLE, "Sensor" + digit, "Sensor " + digit, "Sensors", Boolean, true, None);
      i := i + 1;
    }
    count := AddNode(nodes, count, VARIABLE, "Pi1_InductionSwitch1", "Induction Switch 1 (Pi 1)", "Sensors", Boolean,
      false, None);
    count := AddNode(nodes, count, VARIABLE, "SimulationEnabled", "Simulation Enabled", "Sensors", Boolean, false,
                     Some(ROLE_SIMULATION));
  }
}

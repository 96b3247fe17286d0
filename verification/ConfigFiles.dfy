/** What any file loads to, and what a save writes, in terms of the fields of the JSON tree. */
module ConfigFiles {
  import opened Wrappers
  import opened ServerConfig

  // ---------- names and types ----------

  const LOWER := "abcdefghijklmnopqrstuvwxyz"
  const UPPER := "ABCDEFGHIJKLMNOPQRSTUVWXYZ"
  const DIGITS := "0123456789"

  lemma InLower(c: char, letters: string)
    requires letters == LOWER
    ensures 'a' <= c <= 'z' <==> c in letters
  {
    if 'a' <= c <= 'z' {
      assert letters[c as int - 'a' as int] == c;
    }
  }

  lemma InUpper(c: char, letters: string)
    requires letters == UPPER
    ensures 'A' <= c <= 'Z' <==> c in letters
  {
    if 'A' <= c <= 'Z' {
      assert letters[c as int - 'A' as int] == c;
    }
  }

  lemma InDigits(c: char, digits: string)
    requires digits == DIGITS
    ensures '0' <= c <= '9' <==> c in digits
  {
    if '0' <= c <= '9' {
      assert digits[c as int - '0' as int] == c;
    }
  }

  /** The accepted names, character by character. */
  lemma ValidNameIff(name: string)
    ensures ValidName(name) <==>
      1 <= |name| <= 63 && forall c :: c in name ==> c in LOWER || c in UPPER || c in DIGITS || c == '_'
  {
    forall c | c in name ensures NameChar(c) <==> c in LOWER || c in UPPER || c in DIGITS || c == '_' {
      InLower(c, LOWER);
      InUpper(c, UPPER);
      InDigits(c, DIGITS);
    }
  }

  lemma TypeNames()
    ensures TypeName(Boolean) == "Boolean" && TypeName(Int32) == "Int32"
    ensures TypeName(Double) == "Double" && TypeName(String) == "String"
    ensures TypeOf("Boolean") == Some(Boolean) && TypeOf("Int32") == Some(Int32)
    ensures TypeOf("Double") == Some(Double) && TypeOf("String") == Some(String)
  {
  }

  /** Any other text names no type. */
  lemma OtherTypes(s: string)
    requires s != "Boolean" && s != "Int32" && s != "Double" && s != "String"
    ensures TypeOf(s) == None
  {
  }

  // ---------- one entry ----------

  predicate HasText(item: Json, key: string) {
    Get(item, key).Some? && Get(item, key).value.JString?
  }

  /** As much of a text as a buffer with room for `most` characters keeps. */
  function Kept(text: string, most: nat): string {
    if |text| <= most then text else text[..most]
  }

  function KeptText(item: Json, key: string, most: nat): string {
    if HasText(item, key) then Kept(Get(item, key).value.text, most) else ""
  }

  /** Whatever the item, it is accepted exactly when it has its three texts. */
  lemma AcceptedIff(item: Json)
    ensures ParseNode(item).Some?
       <==> HasText(item, "kind") && HasText(item, "browseName") && HasText(item, "displayName")
  {
  }

  /** The texts of an accepted entry are those of the item, as far as the buffers go; an optional one
      that is missing or no text is empty. */
  lemma AcceptedTexts(item: Json)
    requires ParseNode(item).Some?
    ensures var n := ParseNode(item).value;
      n.kind == KeptText(item, "kind", 15) && n.browseName == KeptText(item, "browseName", 63)
      && n.displayName == KeptText(item, "displayName", 127)
      && n.parentName == KeptText(item, "parentBrowseName", 63) && n.role == KeptText(item, "role", 31)
  {
  }

  /** The items differ at most in that field. */
  ghost predicate SameBut(a: Json, b: Json, key: string) {
    forall k :: k != key ==> Get(a, k) == Get(b, k)
  }

  lemma SameTexts(a: Json, b: Json, key: string)
    requires SameBut(a, b, key) && (key == "simulation" || key == "dataType")
    ensures ParseNode(a).Some? <==> ParseNode(b).Some?
    ensures ParseNode(a).Some? ==>
      ParseNode(a).value == ParseNode(b).value.(dataType := ParseNode(a).value.dataType,
                                                simulation := ParseNode(a).value.simulation)
  {
    assert Get(a, "kind") == Get(b, "kind") && Get(a, "browseName") == Get(b, "browseName");
    assert Get(a, "displayName") == Get(b, "displayName") && Get(a, "role") == Get(b, "role");
    assert Get(a, "parentBrowseName") == Get(b, "parentBrowseName");
  }

  /** An entry is simulated exactly when its field is true; any other field is as good as none. */
  lemma SimulatedIff(a: Json, b: Json)
    requires SameBut(a, b, "simulation") && Get(b, "simulation") == None
    ensures ParseNode(a).Some? <==> ParseNode(b).Some?
    ensures ParseNode(a).Some? ==>
      (ParseNode(a).value.simulation <==> Get(a, "simulation") == Some(JTrue))
      && ParseNode(a).value == ParseNode(b).value.(simulation := ParseNode(a).value.simulation)
      && (Get(a, "simulation") != Some(JTrue) ==> ParseNode(a) == ParseNode(b))
  {
    SameTexts(a, b, "simulation");
    assert Get(a, "dataType") == Get(b, "dataType");
  }

  /** An entry has the type its field names. */
  lemma NamedType(item: Json)
    requires ParseNode(item).Some?
    ensures Get(item, "dataType") == Some(JString("Int32")) ==> ParseNode(item).value.dataType == Int32
    ensures Get(item, "dataType") == Some(JString("Double")) ==> ParseNode(item).value.dataType == Double
    ensures Get(item, "dataType") == Some(JString("String")) ==> ParseNode(item).value.dataType == String
  {
    TypeNames();
  }

  /** A field that names none of these is as good as none, and the type is Boolean. */
  lemma OtherTypeIsBoolean(a: Json, b: Json)
    requires SameBut(a, b, "dataType") && Get(b, "dataType") == None
    requires Get(a, "dataType") != Some(JString("Int32")) && Get(a, "dataType") != Some(JString("Double"))
    requires Get(a, "dataType") != Some(JString("String"))
    ensures ParseNode(a) == ParseNode(b) && (ParseNode(a).Some? ==> ParseNode(a).value.dataType == Boolean)
  {
    SameTexts(a, b, "dataType");
    assert Get(a, "simulation") == Get(b, "simulation");
    if HasText(a, "dataType") && Get(a, "dataType").value.text != "Boolean" {
      OtherTypes(Get(a, "dataType").value.text);
    }
  }

  // ---------- the whole file ----------

  lemma ParsedOne(item: Json)
    ensures Parsed([item]) == if ParseNode(item).Some? then [ParseNode(item).value] else []
  {
    assert [item][..0] == [];
  }

  /** Entries are kept in the order of the file. */
  lemma {:induction false} ParsedJoin(a: seq<Json>, b: seq<Json>)
    ensures Parsed(a + b) == Parsed(a) + Parsed(b)
    decreases |b|
  {
    if b == [] {
      assert a + b == a;
    } else {
      var init, last := b[..|b| - 1], b[|b| - 1];
      assert (a + b)[..|a + b| - 1] == a + init && (a + b)[|a + b| - 1] == last;
      ParsedJoin(a, init);
    }
  }

  /** The first 256 parsable entries are loaded; without any, or without a list, the defaults are; the
      namespace is that of the file unless it has none or the whole configuration is the default. */
  lemma LoadedFrom(root: Json)
    ensures Load(Absent) == Some(Defaults()) && Load(Garbage) == None && Load(Tree(root)).Some?
    ensures var cfg, list := Load(Tree(root)).value, Get(root, "nodes");
      if list.Some? && list.value.JArray? && Parsed(list.value.items) == [] then cfg == Defaults()
      else
        cfg.namespaceUri
          == (if HasText(root, "namespaceUri") then KeptText(root, "namespaceUri", 255) else "urn:binary-sensors-demo")
        && if list.Some? && list.value.JArray?
           then cfg.nodes <= Parsed(list.value.items)
                && (|cfg.nodes| == |Parsed(list.value.items)| || |cfg.nodes| == 256 < |Parsed(list.value.items)|)
           else cfg.nodes == Defaults().nodes
  {
  }

  /** What a save writes: the namespace and one object for each entry, in order. */
  lemma WrittenFile(cfg: Config)
    ensures Get(ToJson(cfg), "namespaceUri") == Some(JString(cfg.namespaceUri))
    ensures var list := Get(ToJson(cfg), "nodes");
      list.Some? && list.value.JArray? && |list.value.items| == |cfg.nodes|
      && forall i :: 0 <= i < |cfg.nodes| ==>
        Get(list.value.items[i], "kind") == Some(JString(cfg.nodes[i].kind))
        && Get(list.value.items[i], "browseName") == Some(JString(cfg.nodes[i].browseName))
        && Get(list.value.items[i], "parentBrowseName") == Some(JString(cfg.nodes[i].parentName))
  {
    var fields := ToJson(cfg).fields;
    LookupAt(fields, 0, "namespaceUri");
    LookupAt(fields, 1, "nodes");
    forall i | 0 <= i < |cfg.nodes|
      ensures Get(fields[1].1.items[i], "kind") == Some(JString(cfg.nodes[i].kind))
      ensures Get(fields[1].1.items[i], "browseName") == Some(JString(cfg.nodes[i].browseName))
      ensures Get(fields[1].1.items[i], "parentBrowseName") == Some(JString(cfg.nodes[i].parentName))
    {
      WrittenFields(cfg.nodes[i]);
    }
  }
}

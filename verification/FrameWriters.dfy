/** What the encoders of the C and C++ bridges share, and the stand-alone bridge's encoder, against
    the frame format of module Frames. */
module FrameWriters {
  import opened Wrappers
  import opened Frames
  import M = MsgPack

  const TOP_ORDER: seq<TopKey> := [Version, Sequence, TimestampMs, Sensors]

  const SENSOR_ORDER: seq<SensorKey> := [Id, Type, Value]

  /** The layout of the C and C++ bridges: shortest integers, keys in the order of the code. */
  function Canonical(f: Frame): (l: Layout)
    ensures FitsLayout(f, l)
  {
    Layout(true, TOP_ORDER, seq(|f.sensors|, _ => SENSOR_ORDER))
  }

  function StrBytes(s: Bytes): (b: Bytes)
    requires |s| < 0x1_0000_0000
    ensures |s| < 32 ==> |b| == 1 + |s|
  {
    M.PackStrHead(|s|) + s
  }

  function KeyBytes(name: string): (b: Bytes)
    requires |name| < 32
    ensures |b| == 1 + |name|
  {
    StrBytes(Ascii(name))
  }

  predicate ValidSensor(s: Sensor) {
    |s.id| < 0x1_0000_0000 && M.InRange(M.U8, s.code) && Scalar(s.value)
  }

  /** What one turn of a writer's sensor loop appends. */
  function SensorBytes(s: Sensor): Bytes
    requires ValidSensor(s)
  {
    M.PackMapHead(3)
    + KeyBytes("id") + StrBytes(s.id)
    + KeyBytes("type") + M.PackShort(s.code)
    + KeyBytes("value") + M.Pack(true, s.value)
  }

  /** What a writer appends before its sensor loop. */
  function HeadBytes(sequence: int, timestamp: int, count: nat): Bytes
    requires M.InRange(M.U64, sequence) && M.InRange(M.U64, timestamp) && count < 0x1_0000_0000
  {
    M.PackMapHead(4)
    + KeyBytes("version") + M.PackShort(1)
    + KeyBytes("sequence") + M.PackShort(sequence)
    + KeyBytes("timestampMs") + M.PackShort(timestamp)
    + KeyBytes("sensors") + M.PackArrHead(count)
  }

  lemma PackPair(short: bool, a: M.Item, b: M.Item, rest: seq<M.Item>)
    requires M.Packable(a) && M.Packable(b) && M.AllPackable(rest)
    ensures M.PackAll(short, [a, b] + rest) == M.Pack(short, a) + M.Pack(short, b) + M.PackAll(short, rest)
  {
    assert ([a, b] + rest)[1..] == [b] + rest;
    assert ([b] + rest)[1..] == rest;
  }

  lemma {:induction false} PackSnoc(items: seq<M.Item>, last: M.Item)
    requires M.AllPackable(items) && M.Packable(last)
    ensures M.PackAll(true, items + [last]) == M.PackAll(true, items) + M.Pack(true, last)
  {
    if items == [] {
      assert items + [last] == [last];
    } else {
      assert (items + [last])[1..] == items[1..] + [last];
      PackSnoc(items[1..], last);
    }
  }

  lemma PackSensorField(s: Sensor, order: seq<SensorKey>)
    requires ValidSensor(s) && order != []
    ensures M.AllPackable(SensorFields(s, order)) && M.AllPackable(SensorFields(s, order[1..]))
    ensures M.PackAll(true, SensorFields(s, order))
         == KeyBytes(SensorName(order[0])) + M.Pack(true, SensorField(s, order[0]))
           + M.PackAll(true, SensorFields(s, order[1..]))
  {
    SensorFieldsPack(s, order);
    SensorFieldsPack(s, order[1..]);
    PackPair(true, M.Str(Ascii(SensorName(order[0]))), SensorField(s, order[0]), SensorFields(s, order[1..]));
  }

  lemma Flatten(h: Bytes, a: Bytes, b: Bytes, rest: Bytes)
    ensures h + (a + b + rest) == h + a + b + rest
  {
  }

  lemma SensorFieldsBytes(s: Sensor, order: seq<SensorKey>)
    requires ValidSensor(s) && order == SENSOR_ORDER
    ensures M.AllPackable(SensorFields(s, order))
    ensures M.PackAll(true, SensorFields(s, order))
         == KeyBytes(SensorName(Id)) + M.Pack(true, SensorField(s, Id))
          + (KeyBytes(SensorName(Type)) + M.Pack(true, SensorField(s, Type))
          + (KeyBytes(SensorName(Value)) + M.Pack(true, SensorField(s, Value)) + []))
  {
    PackSensorField(s, order);
    PackSensorField(s, order[1..]);
    PackSensorField(s, order[2..]);
    assert order[1..][1..] == order[2..] && order[2..][1..] == [];
    assert SensorFields(s, order[2..][1..]) == [];
  }

  lemma SensorPacks(s: Sensor, order: seq<SensorKey>)
    requires ValidSensor(s) && order == SENSOR_ORDER
    ensures M.AllPackable(SensorFields(s, order))
    ensures M.Pack(true, M.Map(SensorFields(s, order))) == SensorBytes(s)
  {
    SensorFieldsBytes(s, order);
    var a, b, c, d := KeyBytes("id"), StrBytes(s.id), KeyBytes("type"), M.PackShort(s.code);
    var e, f := KeyBytes("value"), M.Pack(true, s.value);
    var h := M.PackMapHead(3);
    Flatten(h, a, b, c + d + (e + f + []));
    Flatten(h + a + b, c, d, e + f + []);
    Flatten(h + a + b + c + d, e, f, []);
  }

  lemma PackField(name: string, item: M.Item, rest: seq<M.Item>)
    requires |name| < 32 && M.Packable(item) && M.AllPackable(rest)
    ensures M.AllPackable([M.Str(Ascii(name)), item] + rest)
    ensures M.PackAll(true, [M.Str(Ascii(name)), item] + rest)
      == KeyBytes(name) + M.Pack(true, item) + M.PackAll(true, rest)
  {
    PackPair(true, M.Str(Ascii(name)), item, rest);
  }

  function Field(name: string, item: M.Item): seq<M.Item> {
    [M.Str(Ascii(name)), item]
  }

  function TopList(version: M.Item, sequence: M.Item, timestamp: M.Item, sensors: M.Item): seq<M.Item> {
    Field(TopName(Version), version)
    + (Field(TopName(Sequence), sequence)
      + (Field(TopName(TimestampMs), timestamp) + (Field(TopName(Sensors), sensors) + [])))
  }

  lemma TopListBytes(version: M.Item, sequence: M.Item, timestamp: M.Item, sensors: M.Item)
    requires M.AllPackable([version, sequence, timestamp, sensors])
    ensures M.Packable([version, sequence, timestamp, sensors][0])
      && M.Packable([version, sequence, timestamp, sensors][1])
    ensures M.Packable([version, sequence, timestamp, sensors][2])
      && M.Packable([version, sequence, timestamp, sensors][3])
    ensures M.AllPackable(TopList(version, sequence, timestamp, sensors))
    ensures M.PackAll(true, TopList(version, sequence, timestamp, sensors))
         == KeyBytes(TopName(Version)) + M.Pack(true, version)
          + (KeyBytes(TopName(Sequence)) + M.Pack(true, sequence)
          + (KeyBytes(TopName(TimestampMs)) + M.Pack(true, timestamp)
          + (KeyBytes(TopName(Sensors)) + M.Pack(true, sensors) + [])))
  {
    var four := [version, sequence, timestamp, sensors];
    assert M.Packable(four[0]) && M.Packable(four[1]) && M.Packable(four[2]) && M.Packable(four[3]);
    var none: seq<M.Item> := [];
    var last := Field(TopName(Sensors), sensors) + none;
    PackField(TopName(Sensors), sensors, none);
    PackField(TopName(TimestampMs), timestamp, last);
    var two := Field(TopName(TimestampMs), timestamp) + last;
    PackField(TopName(Sequence), sequence, two);
    PackField(TopName(Version), version, Field(TopName(Sequence), sequence) + two);
  }

  lemma TopFieldsAre(f: Frame, inner: seq<seq<SensorKey>>, top: seq<TopKey>)
    requires |inner| == |f.sensors| && top == TOP_ORDER
    ensures TopFields(f, inner, top)
         == TopList(M.Int(M.U8, 1), M.Int(M.U64, f.sequence), M.Int(M.U64, f.timestamp),
           M.Arr(SensorItems(f.sensors, inner)))
  {
    assert top[1..][1..] == top[2..] && top[2..][1..] == top[3..] && top[3..][1..] == [];
    assert TopFields(f, inner, top[3..]) == Field(TopName(Sensors), TopField(f, inner, Sensors)) + [];
    assert TopFields(f, inner, top[2..])
      == Field(TopName(TimestampMs), TopField(f, inner, TimestampMs)) + TopFields(f, inner, top[3..]);
    assert TopFields(f, inner, top[1..])
      == Field(TopName(Sequence), TopField(f, inner, Sequence)) + TopFields(f, inner, top[2..]);
  }

  /** The calls of an encoder before and in its sensor loop, regrouped as a map of four fields. */
  lemma Regroup(sequence: int, timestamp: int, count: nat, body: Bytes)
    requires M.InRange(M.U64, sequence) && M.InRange(M.U64, timestamp) && count < 0x1_0000_0000
    ensures M.PackMapHead(4)
          + (KeyBytes(TopName(Version)) + M.PackShort(1)
          + (KeyBytes(TopName(Sequence)) + M.PackShort(sequence)
          + (KeyBytes(TopName(TimestampMs)) + M.PackShort(timestamp)
          + (KeyBytes(TopName(Sensors)) + (M.PackArrHead(count) + body) + []))))
         == HeadBytes(sequence, timestamp, count) + body
  {
    var h, a, b := M.PackMapHead(4), KeyBytes("version"), M.PackShort(1);
    var c, d := KeyBytes("sequence"), M.PackShort(sequence);
    var e, g, i, j := KeyBytes("timestampMs"), M.PackShort(timestamp), KeyBytes("sensors"), M.PackArrHead(count);
    RegroupParts(h, a, b, c, d, e, g, i, j, body);
  }

  lemma RegroupParts(h: Bytes, a: Bytes, b: Bytes, c: Bytes, d: Bytes, e: Bytes, g: Bytes, i: Bytes, j: Bytes,
                     body: Bytes)
    ensures h + (a + b + (c + d + (e + g + (i + (j + body) + [])))) == h + a + b + c + d + e + g + i + j + body
  {
    assert i + (j + body) + [] == i + j + body;
    Flatten(h, a, b, c + d + (e + g + (i + j + body)));
    Flatten(h + a + b, c, d, e + g + (i + j + body));
    Flatten(h + a + b + c + d, e, g, i + j + body);
    Flatten(h + a + b + c + d + e + g, i, j, body);
  }

  lemma PackContainers(top: seq<M.Item>, items: seq<M.Item>)
    requires |top| == 8 && M.AllPackable(top) && M.Packable(M.Arr(items))
    ensures M.Packable(M.Map(top)) && M.AllPackable(items)
    ensures M.Pack(true, M.Map(top)) == M.PackMapHead(4) + M.PackAll(true, top)
    ensures M.Pack(true, M.Arr(items)) == M.PackArrHead(|items|) + M.PackAll(true, items)
  {
  }

  lemma FourFieldBytes(sequence: int, timestamp: int, sensors: M.Item, top: seq<M.Item>, body: Bytes, count: nat)
    requires M.InRange(M.U64, sequence) && M.InRange(M.U64, timestamp) && M.Packable(sensors) && count < 0x1_0000_0000
    requires top == TopList(M.Int(M.U8, 1), M.Int(M.U64, sequence), M.Int(M.U64, timestamp), sensors)
    requires M.Pack(true, sensors) == M.PackArrHead(count) + body
    ensures M.AllPackable(top)
      && M.PackMapHead(4) + M.PackAll(true, top) == HeadBytes(sequence, timestamp, count) + body
  {
    TopListBytes(M.Int(M.U8, 1), M.Int(M.U64, sequence), M.Int(M.U64, timestamp), sensors);
    Regroup(sequence, timestamp, count, body);
  }

  /** A frame in the layout of the C and C++ bridges: what is appended before the sensor loop, and
      then the sensors. */
  lemma CanonicalBytes(f: Frame, l: Layout, items: seq<M.Item>)
    requires ValidFrame(f) && l == Canonical(f) && items == SensorItems(f.sensors, l.inner)
    ensures M.AllPackable(items)
    ensures Encoded(f, l) == HeadBytes(f.sequence, f.timestamp, |f.sensors|) + M.PackAll(true, items)
  {
    SensorItemsPack(f, l);
    TopFieldsAre(f, l.inner, l.top);
    var top := TopFields(f, l.inner, l.top);
    TopFieldsPack(f, l, l.top);
    PackContainers(top, items);
    FourFieldBytes(f.sequence, f.timestamp, M.Arr(items), top, M.PackAll(true, items), |items|);
  }

  // ---------- what the C and C++ encoders share ----------

  method AppendHead(sequence: int, timestamp: int, count: nat) returns (buf: Bytes)
    requires M.InRange(M.U64, sequence) && M.InRange(M.U64, timestamp) && count < 0x1_0000_0000
    ensures buf == HeadBytes(sequence, timestamp, count)
  {
    buf := M.PackMapHead(4);
    buf := buf + KeyBytes("version") + M.PackShort(1);
    buf := buf + KeyBytes("sequence") + M.PackShort(sequence);
    buf := buf + KeyBytes("timestampMs") + M.PackShort(timestamp);
    buf := buf + KeyBytes("sensors") + M.PackArrHead(count);
  }

  method AppendSensor(before: Bytes, s: Sensor) returns (buf: Bytes)
    requires ValidSensor(s)
    ensures buf == before + SensorBytes(s)
  {
    var a, b, c, d := KeyBytes("id"), StrBytes(s.id), KeyBytes("type"), M.PackShort(s.code);
    var e, f := KeyBytes("value"), M.Pack(true, s.value);
    buf := before + M.PackMapHead(3);
    buf := buf + a + b;
    buf := buf + c + d;
    buf := buf + e + f;
    assert buf == before + (M.PackMapHead(3) + a + b + c + d + e + f);
  }

  lemma SensorStep(items: seq<M.Item>, i: nat, s: Sensor, order: seq<SensorKey>)
    requires i < |items| && M.AllPackable(items) && ValidSensor(s) && order == SENSOR_ORDER
    requires items[i] == M.Map(SensorFields(s, order))
    ensures M.PackAll(true, items[..i + 1]) == M.PackAll(true, items[..i]) + SensorBytes(s)
  {
    assert items[..i + 1] == items[..i] + [items[i]];
    PackSnoc(items[..i], items[i]);
    SensorPacks(s, order);
  }

  /** One turn of the sensor loop appends the packed form of one more sensor. */
  lemma ItemStep(f: Frame, l: Layout, items: seq<M.Item>, i: nat, head: Bytes)
    requires ValidFrame(f) && l == Canonical(f) && items == SensorItems(f.sensors, l.inner) && M.AllPackable(items)
    requires i < |f.sensors|
    ensures ValidSensor(f.sensors[i])
    ensures head + M.PackAll(true, items[..i + 1]) == head + M.PackAll(true, items[..i]) + SensorBytes(f.sensors[i])
  {
    SensorStep(items, i, f.sensors[i], l.inner[i]);
  }

  lemma NothingPacked(items: seq<M.Item>)
    ensures items[..|items|] == items && items[..0] == [] && M.PackAll(true, items[..0]) == []
  {
  }

  /** Packing every sensor in a loop writes the frame in the canonical layout. */
  method AppendFrame(f: Frame) returns (buf: Bytes)
    requires ValidFrame(f)
    ensures buf == Encoded(f, Canonical(f))
  {
    ghost var l := Canonical(f);
    ghost var items := SensorItems(f.sensors, l.inner);
    CanonicalBytes(f, l, items);
    NothingPacked(items);
    var head := AppendHead(f.sequence, f.timestamp, |f.sensors|);
    buf := head;
    var i := 0;
    while i < |f.sensors|
      invariant 0 <= i <= |f.sensors|
      invariant buf == head + M.PackAll(true, items[..i])
    {
      ItemStep(f, l, items, i, head);
      buf := AppendSensor(buf, f.sensors[i]);
      i := i + 1;
    }
  }

  // ---------- the legacy bridge ----------

  const SENSOR_NAMES: seq<string> := ["Sensor1", "Sensor2", "Sensor3", "Sensor4", "Pi1_InductionSwitch1"]

  /** The frame of one snapshot of the five fixed sensors. */
  function Snapshot(sequence: int, timestamp: int, values: seq<bool>): Frame
    requires |values| == |SENSOR_NAMES|
  {
    Frame(sequence, timestamp,
          seq(|values|, i requires 0 <= i < |values| => Sensor(Ascii(SENSOR_NAMES[i]), 0, M.Bool(values[i]))))
  }

  lemma SensorTexts()
    ensures |SENSOR_NAMES| == 5 && SENSOR_NAMES[0] == "Sensor1" && SENSOR_NAMES[1] == "Sensor2"
    ensures SENSOR_NAMES[2] == "Sensor3" && SENSOR_NAMES[3] == "Sensor4" && SENSOR_NAMES[4] == "Pi1_InductionSwitch1"
  {
  }

  /** What a receiver gets: five Boolean readings, each under its name and with its value. */
  lemma SnapshotIsRead(sequence: int, timestamp: int, values: seq<bool>, rest: Bytes)
    requires M.InRange(M.U64, sequence) && M.InRange(M.U64, timestamp) && |values| == 5
    ensures var f := Snapshot(sequence, timestamp, values);
      ValidFrame(f)
      && var r := M.Unpack(Encoded(f, Canonical(f)) + rest);
      r.Done? && r.rest == rest
      && ReadFrame(r.value) == Some(Received(1, sequence, timestamp,
           [Reading(Ascii("Sensor1"), 0, M.VBool(values[0])), Reading(Ascii("Sensor2"), 0, M.VBool(values[1])),
            Reading(Ascii("Sensor3"), 0, M.VBool(values[2])), Reading(Ascii("Sensor4"), 0, M.VBool(values[3])),
            Reading(Ascii("Pi1_InductionSwitch1"), 0, M.VBool(values[4]))]))
  {
    SnapshotIsValid(sequence, timestamp, values);
    var f := Snapshot(sequence, timestamp, values);
    FrameRoundTrip(f, Canonical(f), rest);
    SensorTexts();
    SnapshotReadings(f, values);
  }

  lemma SnapshotReadings(f: Frame, values: seq<bool>)
    requires |values| == 5 && f == Snapshot(f.sequence, f.timestamp, values)
    ensures ReadingsOf(f.sensors)
         == [Reading(Ascii("Sensor1"), 0, M.VBool(values[0])), Reading(Ascii("Sensor2"), 0, M.VBool(values[1])),
             Reading(Ascii("Sensor3"), 0, M.VBool(values[2])), Reading(Ascii("Sensor4"), 0, M.VBool(values[3])),
             Reading(Ascii("Pi1_InductionSwitch1"), 0, M.VBool(values[4]))]
  {
    SensorTexts();
  }

  method EncodeSnapshot(sequence: int, timestamp: int, values: seq<bool>, bufSize: nat) returns (frame: Bytes)
    requires M.InRange(M.U64, sequence) && M.InRange(M.U64, timestamp) && |values| == |SENSOR_NAMES|
    ensures ValidFrame(Snapshot(sequence, timestamp, values))
    ensures var f := Snapshot(sequence, timestamp, values);
      frame == if |Encoded(f, Canonical(f))| <= bufSize then Encoded(f, Canonical(f)) else []
  {
    var buf := AppendFrame(Snapshot(sequence, timestamp, values));
    frame := if |buf| <= bufSize then buf else [];
  }

  function TotalLength(sensors: seq<Sensor>): nat {
    if sensors == [] then 0 else TotalLength(sensors[..|sensors| - 1]) + |sensors[|sensors| - 1].id|
  }

  lemma SensorLength(s: Sensor)
    requires |s.id| < 32 && 0 <= s.code < 128 && s.value.Bool?
    ensures |SensorBytes(s)| == 18 + |s.id|
  {
  }

  lemma OneMoreLength(f: Frame, items: seq<M.Item>, n: nat)
    requires ValidFrame(f) && items == SensorItems(f.sensors, Canonical(f).inner) && M.AllPackable(items)
    requires 0 < n <= |items|
    requires |f.sensors[n - 1].id| < 32 && f.sensors[n - 1].code < 128 && f.sensors[n - 1].value.Bool?
    ensures |M.PackAll(true, items[..n])| == |M.PackAll(true, items[..n - 1])| + 18 + |f.sensors[n - 1].id|
  {
    SensorStep(items, n - 1, f.sensors[n - 1], Canonical(f).inner[n - 1]);
    SensorLength(f.sensors[n - 1]);
  }

  lemma {:induction false} SensorsLength(f: Frame, items: seq<M.Item>, n: nat)
    requires ValidFrame(f) && items == SensorItems(f.sensors, Canonical(f).inner) && M.AllPackable(items)
      && n <= |items|
    requires forall i :: 0 <= i < n ==> |f.sensors[i].id| < 32 && f.sensors[i].code < 128 && f.sensors[i].value.Bool?
    ensures |M.PackAll(true, items[..n])| == 18 * n + TotalLength(f.sensors[..n])
  {
    if n > 0 {
      SensorsLength(f, items, n - 1);
      OneMoreLength(f, items, n);
      assert f.sensors[..n][..n - 1] == f.sensors[..n - 1];
    }
  }

  lemma SnapshotNames(sensors: seq<Sensor>)
    requires |sensors| == |SENSOR_NAMES| && forall i :: 0 <= i < |sensors| ==> |sensors[i].id| == |SENSOR_NAMES[i]|
    ensures TotalLength(sensors) == 48
  {
    assert TotalLength(sensors[..1]) == 7;
    assert sensors[..2][..1] == sensors[..1] && TotalLength(sensors[..2]) == 14;
    assert sensors[..3][..2] == sensors[..2] && TotalLength(sensors[..3]) == 21;
    assert sensors[..4][..3] == sensors[..3] && TotalLength(sensors[..4]) == 28;
  }

  lemma HeadLength(sequence: int, timestamp: int, count: nat)
    requires M.InRange(M.U64, sequence) && M.InRange(M.U64, timestamp) && count < 16
    ensures |HeadBytes(sequence, timestamp, count)| == 40 + |M.PackShort(sequence)| + |M.PackShort(timestamp)|
  {
  }

  lemma FrameLength(f: Frame)
    requires ValidFrame(f) && |f.sensors| < 16
    requires forall i :: 0 <= i < |f.sensors| ==>
      |f.sensors[i].id| < 32 && f.sensors[i].code < 128 && f.sensors[i].value.Bool?
    ensures |Encoded(f, Canonical(f))|
         == 40 + |M.PackShort(f.sequence)| + |M.PackShort(f.timestamp)| + 18 * |f.sensors| + TotalLength(f.sensors)
  {
    var items := SensorItems(f.sensors, Canonical(f).inner);
    CanonicalBytes(f, Canonical(f), items);
    SensorsLength(f, items, |items|);
    HeadLength(f.sequence, f.timestamp, |items|);
    assert items[..|items|] == items && f.sensors[..|items|] == f.sensors;
  }

  lemma ShortLength(n: int)
    requires M.InRange(M.U64, n)
    ensures 1 <= |M.PackShort(n)| <= 9
  {
  }

  lemma SnapshotIsValid(sequence: int, timestamp: int, values: seq<bool>)
    requires M.InRange(M.U64, sequence) && M.InRange(M.U64, timestamp) && |values| == |SENSOR_NAMES|
    ensures ValidFrame(Snapshot(sequence, timestamp, values))
  {
  }

  /** A five-sensor frame takes between 180 and 196 bytes, so a buffer of 512 bytes never drops one. */
  lemma SnapshotFits(sequence: int, timestamp: int, values: seq<bool>)
    requires M.InRange(M.U64, sequence) && M.InRange(M.U64, timestamp) && |values| == |SENSOR_NAMES|
    ensures ValidFrame(Snapshot(sequence, timestamp, values))
    ensures var f := Snapshot(sequence, timestamp, values);
      |Encoded(f, Canonical(f))| == 178 + |M.PackShort(sequence)| + |M.PackShort(timestamp)|
        && 180 <= |Encoded(f, Canonical(f))| <= 196
  {
    SnapshotIsValid(sequence, timestamp, values);
    var f := Snapshot(sequence, timestamp, values);
    SnapshotNames(f.sensors);
    FrameLength(f);
    ShortLength(sequence);
    ShortLength(timestamp);
  }
}

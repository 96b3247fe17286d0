/** The frames the bridges stream: their MessagePack form in any key order, the receiver's view,
    and streams without delimiters in any chunking. */
module Frames {
  import opened Collections
  import opened Wrappers
  import M = MsgPack

  type Bytes = seq<M.Byte>

  function Ascii(s: string): (b: Bytes)
    ensures |b| == |s|
  {
    seq(|s|, i requires 0 <= i < |s| => s[i] as int % 256)
  }

  datatype Sensor = Sensor(id: Bytes, code: int, value: M.Item)

  datatype Frame = Frame(sequence: int, timestamp: int, sensors: seq<Sensor>)

  predicate Scalar(v: M.Item) {
    !v.Arr? && !v.Map? && M.Packable(v)
  }

  predicate ValidFrame(f: Frame) {
    M.InRange(M.U64, f.sequence) && M.InRange(M.U64, f.timestamp) && |f.sensors| < 0x1_0000_0000
    && forall i :: 0 <= i < |f.sensors| ==>
         |f.sensors[i].id| < 0x1_0000_0000 && M.InRange(M.U8, f.sensors[i].code) && Scalar(f.sensors[i].value)
  }

  // ---------- keys in any order ----------

  datatype TopKey = Version | Sequence | TimestampMs | Sensors

  datatype SensorKey = Id | Type | Value

  function TopName(k: TopKey): string {
    match k
    case Version => "version"
    case Sequence => "sequence"
    case TimestampMs => "timestampMs"
    case Sensors => "sensors"
  }

  function SensorName(k: SensorKey): string {
    match k
    case Id => "id"
    case Type => "type"
    case Value => "value"
  }

  /** A writer's choices: integer style, and the order of keys in each map. */
  datatype Layout = Layout(short: bool, top: seq<TopKey>, inner: seq<seq<SensorKey>>)

  predicate AllSensorKeys(order: seq<SensorKey>) {
    |order| == 3 && Id in order && Type in order && Value in order
  }

  predicate FitsLayout(f: Frame, l: Layout) {
    |l.top| == 4 && Version in l.top && Sequence in l.top && TimestampMs in l.top && Sensors in l.top
    && |l.inner| == |f.sensors| && forall i :: 0 <= i < |l.inner| ==> AllSensorKeys(l.inner[i])
  }

  function SensorField(s: Sensor, k: SensorKey): M.Item {
    match k
    case Id => M.Str(s.id)
    case Type => M.Int(M.U8, s.code)
    case Value => s.value
  }

  function SensorFields(s: Sensor, order: seq<SensorKey>): (r: seq<M.Item>)
    ensures |r| == 2 * |order|
  {
    if order == [] then []
    else [M.Str(Ascii(SensorName(order[0]))), SensorField(s, order[0])] + SensorFields(s, order[1..])
  }

  function SensorItems(sensors: seq<Sensor>, inner: seq<seq<SensorKey>>): (r: seq<M.Item>)
    requires |inner| == |sensors|
    ensures |r| == |sensors| && forall i :: 0 <= i < |r| ==> r[i] == M.Map(SensorFields(sensors[i], inner[i]))
  {
    seq(|sensors|, i requires 0 <= i < |sensors| => M.Map(SensorFields(sensors[i], inner[i])))
  }

  function TopField(f: Frame, inner: seq<seq<SensorKey>>, k: TopKey): M.Item
    requires |inner| == |f.sensors|
  {
    match k
    case Version => M.Int(M.U8, 1)
    case Sequence => M.Int(M.U64, f.sequence)
    case TimestampMs => M.Int(M.U64, f.timestamp)
    case Sensors => M.Arr(SensorItems(f.sensors, inner))
  }

  function TopFields(f: Frame, inner: seq<seq<SensorKey>>, top: seq<TopKey>): (r: seq<M.Item>)
    requires |inner| == |f.sensors|
    ensures |r| == 2 * |top|
  {
    if top == [] then []
    else [M.Str(Ascii(TopName(top[0]))), TopField(f, inner, top[0])] + TopFields(f, inner, top[1..])
  }

  function FrameItem(f: Frame, l: Layout): M.Item
    requires FitsLayout(f, l)
  {
    M.Map(TopFields(f, l.inner, l.top))
  }

  lemma {:induction false} SensorFieldsPack(s: Sensor, order: seq<SensorKey>)
    requires |s.id| < 0x1_0000_0000 && M.InRange(M.U8, s.code) && Scalar(s.value)
    ensures M.AllPackable(SensorFields(s, order))
  {
    if order != [] {
      SensorFieldsPack(s, order[1..]);
    }
  }

  lemma SensorItemsPack(f: Frame, l: Layout)
    requires ValidFrame(f) && FitsLayout(f, l)
    ensures M.Packable(M.Arr(SensorItems(f.sensors, l.inner)))
  {
    forall i | 0 <= i < |f.sensors| ensures M.Packable(SensorItems(f.sensors, l.inner)[i]) {
      SensorFieldsPack(f.sensors[i], l.inner[i]);
    }
  }

  lemma {:induction false} TopFieldsPack(f: Frame, l: Layout, top: seq<TopKey>)
    requires ValidFrame(f) && FitsLayout(f, l)
    ensures M.AllPackable(TopFields(f, l.inner, top))
  {
    if top != [] {
      SensorItemsPack(f, l);
      TopFieldsPack(f, l, top[1..]);
    }
  }

  lemma FramePacks(f: Frame, l: Layout)
    requires ValidFrame(f) && FitsLayout(f, l)
    ensures M.Packable(FrameItem(f, l))
  {
    TopFieldsPack(f, l, l.top);
  }

  // ---------- the receiver ----------

  datatype Reading = Reading(id: Bytes, code: int, value: M.Val)

  datatype Received = Received(version: int, sequence: int, timestamp: int, sensors: seq<Reading>)

  /** The value of a key in a received map, whatever its position. */
  function FieldOf(flat: seq<M.Val>, name: Bytes): Option<M.Val> {
    if |flat| < 2 then None
    else if flat[0] == M.VStr(name) then Some(flat[1])
    else FieldOf(flat[2..], name)
  }

  function Lookup(flat: seq<M.Val>, name: string): Option<M.Val> {
    FieldOf(flat, Ascii(name))
  }

  function ReadSensor(v: M.Val): Option<Reading> {
    if !v.VMap? then None
    else
      var id, code := Lookup(v.flat, SensorName(Id)), Lookup(v.flat, SensorName(Type));
      var value := Lookup(v.flat, SensorName(Value));
      if id.Some? && id.value.VStr? && code.Some? && code.value.VInt? && value.Some?
      then Some(Reading(id.value.s, code.value.n, value.value)) else None
  }

  function ReadSensors(items: seq<M.Val>): Option<seq<Reading>> {
    if items == [] then Some([])
    else
      var head, tail := ReadSensor(items[0]), ReadSensors(items[1..]);
      if head.Some? && tail.Some? then Some([head.value] + tail.value) else None
  }

  function ReadFrame(v: M.Val): Option<Received> {
    if !v.VMap? then None
    else
      var version, sequence := Lookup(v.flat, TopName(Version)), Lookup(v.flat, TopName(Sequence));
      var timestamp, sensors := Lookup(v.flat, TopName(TimestampMs)), Lookup(v.flat, TopName(Sensors));
      if version.Some? && version.value.VInt? && sequence.Some? && sequence.value.VInt?
         && timestamp.Some? && timestamp.value.VInt? && sensors.Some? && sensors.value.VArr?
      then
        var readings := ReadSensors(sensors.value.items);
        if readings.Some? then Some(Received(version.value.n, sequence.value.n, timestamp.value.n, readings.value))
        else None
      else None
  }

  /** What a receiver should learn of a list of sensors, and of a frame. */
  function ReadingsOf(sensors: seq<Sensor>): seq<Reading> {
    seq(|sensors|, i requires 0 <= i < |sensors| =>
      Reading(sensors[i].id, sensors[i].code, M.Meaning(sensors[i].value)))
  }

  function Sent(f: Frame): Received {
    Received(1, f.sequence, f.timestamp, ReadingsOf(f.sensors))
  }

  lemma SensorNamesDiffer(j: SensorKey, k: SensorKey)
    requires j != k
    ensures Ascii(SensorName(j)) != Ascii(SensorName(k))
  {
    assert |Ascii(SensorName(j))| != |Ascii(SensorName(k))|;
  }

  lemma TopNamesDiffer(j: TopKey, k: TopKey)
    requires j != k
    ensures Ascii(TopName(j)) != Ascii(TopName(k))
  {
    assert Ascii("version")[0] == 'v' as int % 256 && Ascii("sensors")[0] == 's' as int % 256;
    assert |Ascii("version")| == 7 && |Ascii("sequence")| == 8 && |Ascii("timestampMs")| == 11
      && |Ascii("sensors")| == 7;
  }

  lemma PairMeanings(a: M.Item, b: M.Item, rest: seq<M.Item>)
    ensures M.Meanings([a, b] + rest) == [M.Meaning(a), M.Meaning(b)] + M.Meanings(rest)
  {
    assert ([a, b] + rest)[1..] == [b] + rest;
    assert ([b] + rest)[1..] == rest;
  }

  lemma {:induction false} SensorFieldFound(s: Sensor, order: seq<SensorKey>, k: SensorKey)
    requires k in order
    ensures Lookup(M.Meanings(SensorFields(s, order)), SensorName(k)) == Some(M.Meaning(SensorField(s, k)))
  {
    PairMeanings(M.Str(Ascii(SensorName(order[0]))), SensorField(s, order[0]), SensorFields(s, order[1..]));
    if order[0] != k {
      SensorNamesDiffer(order[0], k);
      SensorFieldFound(s, order[1..], k);
      var flat := M.Meanings(SensorFields(s, order));
      assert flat[2..] == M.Meanings(SensorFields(s, order[1..]));
    }
  }

  lemma {:induction false} TopFieldFound(f: Frame, inner: seq<seq<SensorKey>>, top: seq<TopKey>, k: TopKey)
    requires |inner| == |f.sensors| && k in top
    ensures Lookup(M.Meanings(TopFields(f, inner, top)), TopName(k)) == Some(M.Meaning(TopField(f, inner, k)))
  {
    PairMeanings(M.Str(Ascii(TopName(top[0]))), TopField(f, inner, top[0]), TopFields(f, inner, top[1..]));
    if top[0] != k {
      TopNamesDiffer(top[0], k);
      TopFieldFound(f, inner, top[1..], k);
      var flat := M.Meanings(TopFields(f, inner, top));
      assert flat[2..] == M.Meanings(TopFields(f, inner, top[1..]));
    }
  }

  lemma SensorReads(s: Sensor, order: seq<SensorKey>)
    requires AllSensorKeys(order)
    ensures ReadSensor(M.Meaning(M.Map(SensorFields(s, order)))) == Some(Reading(s.id, s.code, M.Meaning(s.value)))
  {
    SensorFieldFound(s, order, Id);
    SensorFieldFound(s, order, Type);
    SensorFieldFound(s, order, Value);
  }

  lemma {:induction false} ReadsEach(vals: seq<M.Val>, readings: seq<Reading>)
    requires |vals| == |readings| && forall i :: 0 <= i < |vals| ==> ReadSensor(vals[i]) == Some(readings[i])
    ensures ReadSensors(vals) == Some(readings)
  {
    if vals != [] {
      ReadsEach(vals[1..], readings[1..]);
      assert readings == [readings[0]] + readings[1..];
    }
  }

  lemma SensorsRead(sensors: seq<Sensor>, inner: seq<seq<SensorKey>>)
    requires |inner| == |sensors| && forall i :: 0 <= i < |inner| ==> AllSensorKeys(inner[i])
    ensures ReadSensors(M.Meanings(SensorItems(sensors, inner))) == Some(ReadingsOf(sensors))
  {
    var vals, readings := M.Meanings(SensorItems(sensors, inner)), ReadingsOf(sensors);
    forall i | 0 <= i < |sensors| ensures ReadSensor(vals[i]) == Some(readings[i]) {
      SensorReads(sensors[i], inner[i]);
    }
    ReadsEach(vals, readings);
  }

  lemma ReadFrameFrom(flat: seq<M.Val>, sequence: int, timestamp: int, items: seq<M.Val>, readings: seq<Reading>)
    requires Lookup(flat, TopName(Version)) == Some(M.VInt(1))
      && Lookup(flat, TopName(Sequence)) == Some(M.VInt(sequence))
    requires Lookup(flat, TopName(TimestampMs)) == Some(M.VInt(timestamp))
      && Lookup(flat, TopName(Sensors)) == Some(M.VArr(items))
    requires ReadSensors(items) == Some(readings)
    ensures ReadFrame(M.VMap(flat)) == Some(Received(1, sequence, timestamp, readings))
  {
  }

  lemma NumbersFound(f: Frame, inner: seq<seq<SensorKey>>, top: seq<TopKey>)
    requires |inner| == |f.sensors| && Version in top && Sequence in top && TimestampMs in top
    ensures var flat := M.Meanings(TopFields(f, inner, top));
      Lookup(flat, TopName(Version)) == Some(M.VInt(1)) && Lookup(flat, TopName(Sequence)) == Some(M.VInt(f.sequence))
      && Lookup(flat, TopName(TimestampMs)) == Some(M.VInt(f.timestamp))
  {
    TopFieldFound(f, inner, top, Version);
    TopFieldFound(f, inner, top, Sequence);
    TopFieldFound(f, inner, top, TimestampMs);
  }

  lemma SensorsFound(f: Frame, inner: seq<seq<SensorKey>>, top: seq<TopKey>)
    requires |inner| == |f.sensors| && Sensors in top
    ensures Lookup(M.Meanings(TopFields(f, inner, top)), TopName(Sensors))
      == Some(M.VArr(M.Meanings(SensorItems(f.sensors, inner))))
  {
    TopFieldFound(f, inner, top, Sensors);
  }

  /** For every key order and either integer style the receiver learns what was sent. */
  lemma FrameReads(f: Frame, l: Layout)
    requires FitsLayout(f, l)
    ensures ReadFrame(M.Meaning(FrameItem(f, l))) == Some(Sent(f))
  {
    var flat, items := M.Meanings(TopFields(f, l.inner, l.top)), M.Meanings(SensorItems(f.sensors, l.inner));
    NumbersFound(f, l.inner, l.top);
    SensorsFound(f, l.inner, l.top);
    SensorsRead(f.sensors, l.inner);
    ReadFrameFrom(flat, f.sequence, f.timestamp, items, ReadingsOf(f.sensors));
  }

  // ---------- streams ----------

  function Encoded(f: Frame, l: Layout): Bytes
    requires ValidFrame(f) && FitsLayout(f, l)
  {
    FramePacks(f, l);
    M.Pack(l.short, FrameItem(f, l))
  }

  /** decode(encode(f) + rest) == (f, rest) */
  lemma FrameRoundTrip(f: Frame, l: Layout, rest: Bytes)
    requires ValidFrame(f) && FitsLayout(f, l)
    ensures var r := M.Unpack(Encoded(f, l) + rest);
      r.Done? && r.rest == rest && ReadFrame(r.value) == Some(Sent(f))
  {
    FramePacks(f, l);
    M.UnpackPacked(l.short, FrameItem(f, l), rest);
    FrameReads(f, l);
  }

  /** Everything a receiver can read so far, and the bytes it has to keep. */
  function Drain(buf: Bytes): (r: (seq<M.Val>, Bytes))
    decreases |buf|
  {
    match M.Unpack(buf)
    case Done(v, rest) => var d := Drain(rest); ([v] + d.0, d.1)
    case _ => ([], buf)
  }

  /** A receiver that reads after every chunk. */
  function Feed(kept: Bytes, chunks: seq<Bytes>): (seq<M.Val>, Bytes)
    decreases |chunks|
  {
    if chunks == [] then ([], kept)
    else
      var d := Drain(kept + chunks[0]);
      var more := Feed(d.1, chunks[1..]);
      (d.0 + more.0, more.1)
  }

  lemma DrainFirst(a: Bytes, v: M.Val, rest: Bytes)
    requires M.Unpack(a) == M.Done(v, rest)
    ensures Drain(a) == ([v] + Drain(rest).0, Drain(rest).1)
  {
  }

  lemma {:induction false} DrainAppend(a: Bytes, b: Bytes)
    ensures var d := Drain(a); var e := Drain(d.1 + b); Drain(a + b) == (d.0 + e.0, e.1)
    decreases |a|
  {
    M.UnpackExtends(a, b);
    if M.Unpack(a).Done? {
      var v, rest := M.Unpack(a).value, M.Unpack(a).rest;
      DrainAppend(rest, b);
      DrainFirst(a, v, rest);
      DrainFirst(a + b, v, rest + b);
      Associative([v], Drain(rest).0, Drain(Drain(rest).1 + b).0);
    } else {
      assert Drain(a) == ([], a);
      assert [] + Drain(a + b).0 == Drain(a + b).0;
    }
  }

  /** Nothing in these bytes can be read yet. */
  predicate Idle(kept: Bytes) {
    !M.Unpack(kept).Done?
  }

  lemma {:induction false} RemainderIsIdle(s: Bytes)
    ensures Idle(Drain(s).1)
    decreases |s|
  {
    if M.Unpack(s).Done? {
      RemainderIsIdle(M.Unpack(s).rest);
    }
  }

  lemma FeedStep(kept: Bytes, chunk: Bytes, later: Bytes, chunks: seq<Bytes>)
    requires chunks != [] && chunk == chunks[0]
    requires Feed(Drain(kept + chunk).1, chunks[1..]) == Drain(Drain(kept + chunk).1 + later)
    ensures Feed(kept, chunks) == Drain((kept + chunk) + later)
  {
    DrainAppend(kept + chunk, later);
  }

  /** However the stream is cut into reads, the receiver gets the same values. */
  lemma {:induction false} ChunksDoNotMatter(kept: Bytes, chunks: seq<Bytes>)
    requires Idle(kept)
    ensures Feed(kept, chunks) == Drain(kept + Join(chunks))
    decreases |chunks|
  {
    if chunks == [] {
      assert kept + Join(chunks) == kept;
    } else {
      var whole, later := kept + Join(chunks), Join(chunks[1..]);
      assert (kept + chunks[0]) + later == whole;
      RemainderIsIdle(kept + chunks[0]);
      ChunksDoNotMatter(Drain(kept + chunks[0]).1, chunks[1..]);
      FeedStep(kept, chunks[0], later, chunks);
    }
  }

  datatype Outgoing = Outgoing(frame: Frame, layout: Layout)

  predicate Sendable(o: Outgoing) {
    ValidFrame(o.frame) && FitsLayout(o.frame, o.layout)
  }

  predicate AllSendable(out: seq<Outgoing>) {
    forall i :: 0 <= i < |out| ==> Sendable(out[i])
  }

  function Stream(out: seq<Outgoing>): Bytes
    requires AllSendable(out)
  {
    if out == [] then [] else Encoded(out[0].frame, out[0].layout) + Stream(out[1..])
  }

  /** The frames among received values. */
  function FramesIn(vals: seq<M.Val>): Option<seq<Received>> {
    if vals == [] then Some([])
    else
      var head, tail := ReadFrame(vals[0]), FramesIn(vals[1..]);
      if head.Some? && tail.Some? then Some([head.value] + tail.value) else None
  }

  function SentAll(out: seq<Outgoing>): seq<Received> {
    seq(|out|, i requires 0 <= i < |out| => Sent(out[i].frame))
  }

  /** Draining these bytes gives these frames and leaves nothing. */
  ghost predicate Gives(buf: Bytes, frames: seq<Received>) {
    Drain(buf).1 == [] && FramesIn(Drain(buf).0) == Some(frames)
  }

  lemma FrameThenRest(f: Frame, l: Layout, rest: Bytes, later: seq<Received>)
    requires ValidFrame(f) && FitsLayout(f, l)
    requires Gives(rest, later)
    ensures Gives(Encoded(f, l) + rest, [Sent(f)] + later)
  {
    FrameRoundTrip(f, l, rest);
    var v := M.Unpack(Encoded(f, l) + rest).value;
    DrainFirst(Encoded(f, l) + rest, v, rest);
    assert ([v] + Drain(rest).0)[1..] == Drain(rest).0;
  }

  lemma {:induction false} StreamDrains(out: seq<Outgoing>)
    requires AllSendable(out)
    ensures Gives(Stream(out), SentAll(out))
  {
    if out != [] {
      var f, l, rest, later := out[0].frame, out[0].layout, Stream(out[1..]), SentAll(out[1..]);
      StreamDrains(out[1..]);
      FrameThenRest(f, l, rest, later);
      assert Stream(out) == Encoded(f, l) + rest && SentAll(out) == [Sent(f)] + later;
    }
  }

  /** Any concatenation of frames, in any layouts, cut into reads anywhere, is received as
      exactly the list of frames sent, with nothing left over. */
  lemma StreamIsReceived(out: seq<Outgoing>, chunks: seq<Bytes>)
    requires AllSendable(out)
    requires Join(chunks) == Stream(out)
    ensures Feed([], chunks).1 == [] && FramesIn(Feed([], chunks).0) == Some(SentAll(out))
  {
    ChunksDoNotMatter([], chunks);
    assert [] + Join(chunks) == Stream(out);
    StreamDrains(out);
  }
}

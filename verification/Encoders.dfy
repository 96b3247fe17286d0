/** The encoders that choose their sensors: the Qt engine's, over its enabled mappings with typed
    values, and the Go service's, whose map keys come in any order. */
module Encoders {
  import opened Collections
  import opened Wrappers
  import opened Frames
  import opened FrameWriters
  import M = MsgPack

  type Int32 = n: int | -0x8000_0000 <= n < 0x8000_0000

  type Int64 = n: int | -0x8000_0000_0000_0000 <= n < 0x8000_0000_0000_0000

  type Bits32 = s: Bytes | |s| == 4 witness [0, 0, 0, 0]

  type Bits64 = s: Bytes | |s| == 8 witness [0, 0, 0, 0, 0, 0, 0, 0]

  /** A string of the user interface, in UTF-8: its length is a 32-bit int. */
  type Text = s: Bytes | |s| < 0x8000_0000

  /** What reading a node's value attribute gives. */
  datatype Outcome =
    | Boolean(b: bool)
    | Integer32(n32: Int32)
    | Integer64(n64: Int64)
    | Single(bits32: Bits32)
    | Double(bits64: Bits64)
    | OtherType
    | Failed

  function WireValue(o: Outcome): (v: M.Item)
    ensures Scalar(v)
  {
    match o
    case Boolean(b) => M.Bool(b)
    case Integer32(n) => M.Int(M.I32, n)
    case Integer64(n) => M.Int(M.I64, n)
    case Single(bits) => M.Float32(bits)
    case Double(bits) => M.Float64(bits)
    case _ => M.Bool(false)
  }

  datatype Mapping = Mapping(messagePackId: Text, nodeId: Text, code: M.Byte, enabled: bool)

  predicate Live(m: Mapping) {
    m.enabled && m.nodeId != []
  }

  /** The mappings a frame carries, in their order. */
  function LiveOnes(mappings: seq<Mapping>): (live: seq<Mapping>)
    ensures |live| <= |mappings|
  {
    if mappings == [] then []
    else
      var n := |mappings| - 1;
      LiveOnes(mappings[..n]) + if Live(mappings[n]) then [mappings[n]] else []
  }

  function WireId(m: Mapping): Text {
    if m.messagePackId == [] then m.nodeId else m.messagePackId
  }

  function SensorOf(m: Mapping, o: Outcome): Sensor {
    Sensor(WireId(m), m.code, WireValue(o))
  }

  /** The frame of one tick: `outcomes` gives the outcome of each read of the tick, in order. */
  function EngineFrame(sequence: int, timestamp: int, live: seq<Mapping>, outcomes: nat -> Outcome): Frame {
    Frame(sequence, timestamp, seq(|live|, i requires 0 <= i < |live| => SensorOf(live[i], outcomes(i))))
  }

  class Engine {
    var mappings: seq<Mapping>
    var sequence: int

    ghost predicate Valid()
      reads this
    {
      M.InRange(M.U64, sequence) && |mappings| < 0x8000_0000
    }

    constructor (initial: seq<Mapping>)
      requires |initial| < 0x8000_0000
      ensures Valid() && mappings == initial && sequence == 0
    {
      mappings, sequence := initial, 0;
    }

    method EncodeFrame(timestamp: int, outcomes: nat -> Outcome) returns (bytes: Bytes)
      requires Valid() && M.InRange(M.U64, timestamp)
      modifies this`sequence
      ensures Valid() && sequence == (old(sequence) + 1) % 0x1_0000_0000_0000_0000
      ensures var f := EngineFrame(sequence, timestamp, LiveOnes(mappings), outcomes);
        ValidFrame(f) && bytes == Encoded(f, Canonical(f))
      ensures var r := M.Unpack(bytes);
        r.Done? && r.rest == [] && ReadFrame(r.value).Some?
        && var got := ReadFrame(r.value).value;
        got.version == 1 && got.sequence == sequence && got.timestamp == timestamp
        && TellsAll(got.sensors, LiveOnes(mappings), outcomes)
    {
      sequence := (sequence + 1) % 0x1_0000_0000_0000_0000;
      var live: seq<Mapping> := [];
      var i := 0;
      while i < |mappings|
        invariant 0 <= i <= |mappings|
        invariant live == LiveOnes(mappings[..i])
      {
        assert mappings[..i + 1][..i] == mappings[..i];
        if Live(mappings[i]) {
          live := live + [mappings[i]];
        }
        i := i + 1;
      }
      assert mappings[..|mappings|] == mappings;
      var sensors: seq<Sensor> := [];
      var j := 0;
      while j < |live|
        invariant 0 <= j == |sensors| <= |live|
        invariant forall k :: 0 <= k < j ==> sensors[k] == SensorOf(live[k], outcomes(k))
      {
        sensors := sensors + [SensorOf(live[j], outcomes(j))];
        j := j + 1;
      }
      ghost var f := EngineFrame(sequence, timestamp, live, outcomes);
      assert sensors == f.sensors;
      bytes := AppendFrame(Frame(sequence, timestamp, sensors));
      EngineFrameIsRead(sequence, timestamp, mappings, outcomes, []);
      assert bytes + [] == bytes;
    }
  }

  lemma EngineFrameIsValid(f: Frame, live: seq<Mapping>, outcomes: nat -> Outcome)
    requires M.InRange(M.U64, f.sequence) && M.InRange(M.U64, f.timestamp) && |live| < 0x8000_0000
    requires f == EngineFrame(f.sequence, f.timestamp, live, outcomes)
    ensures ValidFrame(f)
  {
    forall i | 0 <= i < |f.sensors|
      ensures |f.sensors[i].id| < 0x1_0000_0000 && M.InRange(M.U8, f.sensors[i].code) && Scalar(f.sensors[i].value)
    {
      assert f.sensors[i] == SensorOf(live[i], outcomes(i));
    }
  }

  /** The reading tells of this mapping and of the outcome of its read: the message id or, where that
      is empty, the node id; the mapping's type code; and the value read, or false if it has another
      type or the read failed. */
  predicate Tells(r: Reading, m: Mapping, o: Outcome) {
    (m.messagePackId != [] ==> r.id == m.messagePackId) && (m.messagePackId == [] ==> r.id == m.nodeId)
    && r.code == m.code
    && match o
       case Boolean(b) => r.value == M.VBool(b)
       case Integer32(n) => r.value == M.VInt(n)
       case Integer64(n) => r.value == M.VInt(n)
       case Single(bits) => r.value == M.VFloat32(bits)
       case Double(bits) => r.value == M.VFloat64(bits)
       case OtherType => r.value == M.VBool(false)
       case Failed => r.value == M.VBool(false)
  }

  predicate TellsAll(rs: seq<Reading>, live: seq<Mapping>, outcomes: nat -> Outcome) {
    |rs| == |live| && forall i :: 0 <= i < |rs| ==> Tells(rs[i], live[i], outcomes(i))
  }

  lemma EngineReadings(f: Frame, live: seq<Mapping>, outcomes: nat -> Outcome)
    requires f == EngineFrame(f.sequence, f.timestamp, live, outcomes)
    ensures TellsAll(ReadingsOf(f.sensors), live, outcomes)
  {
    forall i | 0 <= i < |live| ensures Tells(ReadingsOf(f.sensors)[i], live[i], outcomes(i)) {
      assert f.sensors[i] == SensorOf(live[i], outcomes(i));
    }
  }

  /** What the receiver gets from the Qt engine: exactly the live mappings in order, each under its
      message id or, without one, its node id, with the value read for it and its type code. */
  lemma EngineFrameIsRead(sequence: int, timestamp: int, mappings: seq<Mapping>, outcomes: nat -> Outcome, rest: Bytes)
    requires M.InRange(M.U64, sequence) && M.InRange(M.U64, timestamp) && |mappings| < 0x8000_0000
    ensures var f := EngineFrame(sequence, timestamp, LiveOnes(mappings), outcomes);
      ValidFrame(f)
      && var r := M.Unpack(Encoded(f, Canonical(f)) + rest);
      r.Done? && r.rest == rest && ReadFrame(r.value).Some?
      && var got := ReadFrame(r.value).value;
      got.version == 1 && got.sequence == sequence && got.timestamp == timestamp
      && TellsAll(got.sensors, LiveOnes(mappings), outcomes)
  {
    var live := LiveOnes(mappings);
    var f := EngineFrame(sequence, timestamp, live, outcomes);
    EngineFrameIsValid(f, live, outcomes);
    FrameRoundTrip(f, Canonical(f), rest);
    EngineReadings(f, live, outcomes);
  }

  lemma {:induction false} LiveOnesIff(mappings: seq<Mapping>, m: Mapping)
    ensures m in LiveOnes(mappings) <==> m in mappings && m.enabled && m.nodeId != []
  {
    if mappings != [] {
      var init, last := mappings[..|mappings| - 1], mappings[|mappings| - 1];
      assert mappings == init + [last];
      LiveOnesIff(init, m);
    }
  }

  /** The live mappings are the enabled ones with a node id, in their order. */
  lemma LiveOnesOne(m: Mapping)
    ensures LiveOnes([m]) == if m.enabled && m.nodeId != [] then [m] else []
  {
    assert [m][..0] == [];
  }

  lemma {:induction false} LiveOnesJoin(a: seq<Mapping>, b: seq<Mapping>)
    ensures LiveOnes(a + b) == LiveOnes(a) + LiveOnes(b)
    decreases |b|
  {
    if b == [] {
      assert a + b == a;
    } else {
      LiveOnesJoin(a, b[..|b| - 1]);
      LiveOnesStep(a, b, b[..|b| - 1], b[|b| - 1]);
    }
  }

  lemma LiveOnesStep(a: seq<Mapping>, b: seq<Mapping>, init: seq<Mapping>, last: Mapping)
    requires b == init + [last] && LiveOnes(a + init) == LiveOnes(a) + LiveOnes(init)
    ensures LiveOnes(a + b) == LiveOnes(a) + LiveOnes(b)
  {
    var one := if Live(last) then [last] else [];
    assert a + b == (a + init) + [last];
    LiveOnesLast(a + b, a + init, last);
    LiveOnesLast(b, init, last);
    Associative(LiveOnes(a), LiveOnes(init), one);
  }

  lemma LiveOnesLast(all: seq<Mapping>, init: seq<Mapping>, last: Mapping)
    requires all == init + [last]
    ensures LiveOnes(all) == LiveOnes(init) + if Live(last) then [last] else []
  {
    assert all[..|all| - 1] == init;
  }

  // ---------- the Go encoder ----------

  /** One map per sensor; `inner` gives the order each map's keys come out in. */
  method SensorMaps(sensors: seq<Sensor>, inner: seq<seq<SensorKey>>) returns (out: seq<M.Item>)
    requires |inner| == |sensors|
    ensures out == SensorItems(sensors, inner)
  {
    out := [];
    var i := 0;
    while i < |sensors|
      invariant 0 <= i == |out| <= |sensors|
      invariant forall k :: 0 <= k < i ==> out[k] == M.Map(SensorFields(sensors[k], inner[k]))
    {
      out := out + [M.Map(SensorFields(sensors[i], inner[i]))];
      i := i + 1;
    }
  }

  lemma NextField(f: Frame, l: Layout, top: seq<TopKey>, item: M.Item)
    requires ValidFrame(f) && FitsLayout(f, l) && top != [] && item == TopField(f, l.inner, top[0])
    ensures M.AllPackable(TopFields(f, l.inner, top)) && M.AllPackable(TopFields(f, l.inner, top[1..]))
      && M.Packable(item)
    ensures M.PackAll(false, TopFields(f, l.inner, top))
         == M.Pack(false, M.Str(Ascii(TopName(top[0])))) + M.Pack(false, item)
           + M.PackAll(false, TopFields(f, l.inner, top[1..]))
  {
    TopFieldsPack(f, l, top[1..]);
    if top[0] == Sensors {
      SensorItemsPack(f, l);
    }
    PackPair(false, M.Str(Ascii(TopName(top[0]))), item, TopFields(f, l.inner, top[1..]));
    TopFieldsPack(f, l, top);
  }

  /** The bytes of the fields from the i-th on. */
  function Remaining(f: Frame, l: Layout, i: nat): Bytes
    requires ValidFrame(f) && FitsLayout(f, l) && i <= |l.top|
  {
    TopFieldsPack(f, l, l.top[i..]);
    M.PackAll(false, TopFields(f, l.inner, l.top[i..]))
  }

  lemma NothingRemains(f: Frame, l: Layout)
    requires ValidFrame(f) && FitsLayout(f, l)
    ensures Remaining(f, l, |l.top|) == []
  {
    assert l.top[|l.top|..] == [];
  }

  lemma NextStep(f: Frame, l: Layout, i: nat, item: M.Item, before: Bytes)
    requires ValidFrame(f) && FitsLayout(f, l) && i < |l.top| && item == TopField(f, l.inner, l.top[i])
    ensures M.Packable(item)
    ensures before + Remaining(f, l, i)
         == before + M.Pack(false, M.Str(Ascii(TopName(l.top[i])))) + M.Pack(false, item) + Remaining(f, l, i + 1)
  {
    var top := l.top[i..];
    assert top[1..] == l.top[i + 1..] && top[0] == l.top[i];
    NextField(f, l, top, item);
    Flatten(before, M.Pack(false, M.Str(Ascii(TopName(top[0])))), M.Pack(false, item), Remaining(f, l, i + 1));
  }

  /** A field's value, given the sensor maps already built. */
  function Entry(f: Frame, maps: seq<M.Item>, k: TopKey): M.Item {
    match k
    case Version => M.Int(M.U8, 1)
    case Sequence => M.Int(M.U64, f.sequence)
    case TimestampMs => M.Int(M.U64, f.timestamp)
    case Sensors => M.Arr(maps)
  }

  lemma EncodedWide(f: Frame, l: Layout)
    requires ValidFrame(f) && FitsLayout(f, l) && !l.short
    ensures Encoded(f, l) == M.PackMapHead(4) + Remaining(f, l, 0)
  {
    TopFieldsPack(f, l, l.top);
    assert l.top[0..] == l.top;
  }

  /** The frame's map, written key by key in the order `top`. */
  method Encode(f: Frame, top: seq<TopKey>, inner: seq<seq<SensorKey>>) returns (bytes: Bytes)
    requires ValidFrame(f) && FitsLayout(f, Layout(false, top, inner))
    ensures bytes == Encoded(f, Layout(false, top, inner))
  {
    ghost var l := Layout(false, top, inner);
    var maps := SensorMaps(f.sensors, inner);
    EncodedWide(f, l);
    bytes := M.PackMapHead(4);
    var i := 0;
    while i < |top|
      invariant 0 <= i <= |top|
      invariant Encoded(f, l) == bytes + Remaining(f, l, i)
    {
      var key, item := M.Str(Ascii(TopName(top[i]))), Entry(f, maps, top[i]);
      NextStep(f, l, i, item, bytes);
      bytes := bytes + M.Pack(false, key) + M.Pack(false, item);
      i := i + 1;
    }
    NothingRemains(f, l);
    assert bytes + [] == bytes;
  }
}

/** The bytes and names on the wire, written out: the formats of the MessagePack specification that are
    used here, and the fields of a frame as the protocol names them. */
module WireFormat {
  import opened Wrappers
  import opened MsgPack
  import F = Frames

  // ---------- numbers ----------

  /** The most significant byte comes first. */
  lemma TwoBytes(n: nat)
    requires n < 0x1_0000
    ensures BigEndian(n, 2) == [n / 0x100, n % 0x100]
  {
    assert BigEndian(n / 0x100, 1) == BigEndian(n / 0x100 / 0x100, 0) + [n / 0x100 % 0x100];
  }

  lemma OneMoreByte(n: nat, last: Byte, k: nat)
    ensures BigEndian(0x100 * n + last, k + 1) == BigEndian(n, k) + [last]
  {
    assert (0x100 * n + last) / 0x100 == n && (0x100 * n + last) % 0x100 == last;
  }

  lemma FourBytes(a: Byte, b: Byte, c: Byte, d: Byte)
    ensures BigEndian(0x100 * (0x100 * (0x100 * a + b) + c) + d, 4) == [a, b, c, d]
  {
    OneMoreByte(0x100 * (0x100 * a + b) + c, d, 3);
    OneMoreByte(0x100 * a + b, c, 2);
    OneMoreByte(a, b, 1);
    assert BigEndian(a, 1) == [a];
  }

  /** Head byte and width of each integer format; the bytes after it are the number, in two's
      complement, most significant first. */
  lemma ShortFormats(n: int)
    requires -0x8000_0000_0000_0000 <= n < 0x1_0000_0000_0000_0000
    ensures 0 <= n < 0x80 ==> PackShort(n) == [n]
    ensures -0x20 <= n < 0 ==> PackShort(n) == [0x100 + n]
    ensures 0x80 <= n < 0x100 ==> PackShort(n) == [0xcc, n]
    ensures 0x100 <= n < 0x1_0000 ==> PackShort(n) == [0xcd, n / 0x100, n % 0x100]
    ensures 0x1_0000 <= n < 0x1_0000_0000 ==> PackShort(n)[0] == 0xce && |PackShort(n)| == 5
    ensures 0x1_0000_0000 <= n ==> PackShort(n)[0] == 0xcf && |PackShort(n)| == 9
    ensures -0x80 <= n < -0x20 ==> PackShort(n) == [0xd0, 0x100 + n]
    ensures -0x8000 <= n < -0x80 ==> PackShort(n)[0] == 0xd1 && |PackShort(n)| == 3
    ensures -0x8000_0000 <= n < -0x8000 ==> PackShort(n)[0] == 0xd2 && |PackShort(n)| == 5
    ensures n < -0x8000_0000 ==> PackShort(n)[0] == 0xd3 && |PackShort(n)| == 9
  {
    if 0x100 <= n < 0x1_0000 {
      TwoBytes(n);
    }
  }

  lemma WideFormats(t: IntType, n: int)
    requires InRange(t, n)
    ensures t.U8? ==> PackWide(t, n) == [0xcc, n]
    ensures t.U64? ==> PackWide(t, n)[0] == 0xcf && |PackWide(t, n)| == 9
    ensures t.I32? ==> PackWide(t, n)[0] == 0xd2 && |PackWide(t, n)| == 5
    ensures t.I64? ==> PackWide(t, n)[0] == 0xd3 && |PackWide(t, n)| == 9
  {
  }

  // ---------- the other families ----------

  lemma ScalarFormats(short: bool, bits: seq<Byte>)
    ensures Pack(short, Bool(true)) == [0xc3] && Pack(short, Bool(false)) == [0xc2]
    ensures |bits| == 4 ==> Pack(short, Float32(bits)) == [0xca] + bits
    ensures |bits| == 8 ==> Pack(short, Float64(bits)) == [0xcb] + bits
  {
  }

  lemma LengthFormats(n: nat)
    requires n < 0x1_0000_0000
    ensures n < 32 ==> PackStrHead(n) == [0xa0 + n]
    ensures 32 <= n < 0x100 ==> PackStrHead(n) == [0xd9, n]
    ensures 0x100 <= n < 0x1_0000 ==> PackStrHead(n) == [0xda, n / 0x100, n % 0x100]
    ensures 0x1_0000 <= n ==> PackStrHead(n)[0] == 0xdb && |PackStrHead(n)| == 5
    ensures n < 16 ==> PackArrHead(n) == [0x90 + n] && PackMapHead(n) == [0x80 + n]
    ensures 16 <= n < 0x1_0000 ==> PackArrHead(n) == [0xdc, n / 0x100, n % 0x100]
    ensures 16 <= n < 0x1_0000 ==> PackMapHead(n) == [0xde, n / 0x100, n % 0x100]
    ensures 0x1_0000 <= n ==> PackArrHead(n)[0] == 0xdd && PackMapHead(n)[0] == 0xdf
    ensures 0x1_0000 <= n ==> |PackArrHead(n)| == |PackMapHead(n)| == 5
  {
    if n < 0x1_0000 {
      TwoBytes(n);
    }
  }

  // ---------- the fields of a frame ----------

  /** A received map has this text key with this value. */
  ghost predicate HasField(flat: seq<Val>, name: string, value: Val) {
    F.FieldOf(flat, F.Ascii(name)) == Some(value)
  }

  /** What a receiver reads is under the names of the protocol. */
  lemma FrameFields(v: Val, r: F.Received)
    requires F.ReadFrame(v) == Some(r)
    ensures v.VMap? && HasField(v.flat, "version", VInt(r.version)) && HasField(v.flat, "sequence", VInt(r.sequence))
    ensures HasField(v.flat, "timestampMs", VInt(r.timestamp))
    ensures exists items :: HasField(v.flat, "sensors", VArr(items)) && F.ReadSensors(items) == Some(r.sensors)
  {
    var items := F.Lookup(v.flat, F.TopName(F.Sensors)).value.items;
    assert HasField(v.flat, "sensors", VArr(items));
  }

  lemma SensorFields(v: Val, r: F.Reading)
    requires F.ReadSensor(v) == Some(r)
    ensures v.VMap? && HasField(v.flat, "id", VStr(r.id)) && HasField(v.flat, "type", VInt(r.code))
    ensures HasField(v.flat, "value", r.value)
  {
  }

  /** The keys as bytes. */
  lemma KeyBytes()
    ensures F.Ascii("id") == [0x69, 0x64] && F.Ascii("type") == [0x74, 0x79, 0x70, 0x65]
    ensures F.Ascii("value") == [0x76, 0x61, 0x6c, 0x75, 0x65]
    ensures F.Ascii("version") == [0x76, 0x65, 0x72, 0x73, 0x69, 0x6f, 0x6e]
  {
  }
}

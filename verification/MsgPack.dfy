/** MessagePack, section "Formats" of its specification: the bool, int, float, str, array and map
    families.  A writer in two styles (shortest integers, as msgpack-c packs them, and integers of
    the width of their type, as the Go encoder does by default), a reader, and their round trip. */
module MsgPack {
  import opened Collections

  type Byte = x: int | 0 <= x < 256

  /** Integers by the type they are packed from. */
  datatype IntType = U8 | U64 | I32 | I64

  /** What a writer packs.  A map lists its keys and values alternately. */
  datatype Item =
    | Bool(b: bool)
    | Int(t: IntType, n: int)
    | Float32(bits: seq<Byte>)
    | Float64(bits: seq<Byte>)
    | Str(s: seq<Byte>)
    | Arr(items: seq<Item>)
    | Map(flat: seq<Item>)

  /** What a reader gets: the integer's type is not on the wire. */
  datatype Val =
    | VBool(b: bool)
    | VInt(n: int)
    | VFloat32(bits: seq<Byte>)
    | VFloat64(bits: seq<Byte>)
    | VStr(s: seq<Byte>)
    | VArr(items: seq<Val>)
    | VMap(flat: seq<Val>)

  function Meaning(item: Item): Val {
    match item
    case Bool(b) => VBool(b)
    case Int(_, n) => VInt(n)
    case Float32(bits) => VFloat32(bits)
    case Float64(bits) => VFloat64(bits)
    case Str(s) => VStr(s)
    case Arr(items) => VArr(Meanings(items))
    case Map(flat) => VMap(Meanings(flat))
  }

  function Meanings(items: seq<Item>): (r: seq<Val>)
    ensures |r| == |items|
    ensures forall i :: 0 <= i < |items| ==> r[i] == Meaning(items[i])
  {
    if items == [] then [] else [Meaning(items[0])] + Meanings(items[1..])
  }

  // ---------- big-endian numbers ----------

  function Pow256(k: nat): nat {
    if k == 0 then 1 else 256 * Pow256(k - 1)
  }

  function BigEndian(n: nat, k: nat): (s: seq<Byte>)
    ensures |s| == k
  {
    if k == 0 then [] else BigEndian(n / 256, k - 1) + [n % 256]
  }

  function Number(s: seq<Byte>): nat {
    if s == [] then 0 else Number(s[..|s| - 1]) * 256 + s[|s| - 1]
  }

  lemma {:induction false} BigEndianReads(n: nat, k: nat)
    requires n < Pow256(k)
    ensures Number(BigEndian(n, k)) == n
  {
    if k > 0 {
      BigEndianReads(n / 256, k - 1);
      assert BigEndian(n, k)[..k - 1] == BigEndian(n / 256, k - 1);
    }
  }

  lemma Powers()
    ensures Pow256(1) == 0x100 && Pow256(2) == 0x1_0000 && Pow256(4) == 0x1_0000_0000
         && Pow256(8) == 0x1_0000_0000_0000_0000
  {
    assert Pow256(2) == 256 * Pow256(1);
    assert Pow256(4) == 256 * Pow256(3) && Pow256(3) == 256 * Pow256(2);
    assert Pow256(8) == 256 * Pow256(7) && Pow256(7) == 256 * Pow256(6) && Pow256(6) == 256 * Pow256(5)
      && Pow256(5) == 256 * Pow256(4);
  }

  // ---------- heads ----------

  /** What the first bytes of a value say: a whole scalar, or how much follows. */
  datatype Head =
    | HBool(b: bool)
    | HInt(n: int)
    | HFloat32
    | HFloat64
    | HStr(len: nat)
    | HArr(len: nat)
    | HMap(len: nat)

  predicate InRange(t: IntType, n: int) {
    match t
    case U8 => 0 <= n < 0x100
    case U64 => 0 <= n < 0x1_0000_0000_0000_0000
    case I32 => -0x8000_0000 <= n < 0x8000_0000
    case I64 => -0x8000_0000_0000_0000 <= n < 0x8000_0000_0000_0000
  }

  /** The shortest form of an integer. */
  function PackShort(n: int): seq<Byte>
    requires -0x8000_0000_0000_0000 <= n < 0x1_0000_0000_0000_0000
  {
    if n < -0x8000_0000 then [0xd3] + BigEndian(n + 0x1_0000_0000_0000_0000, 8)
    else if n < -0x8000 then [0xd2] + BigEndian(n + 0x1_0000_0000, 4)
    else if n < -0x80 then [0xd1] + BigEndian(n + 0x1_0000, 2)
    else if n < -0x20 then [0xd0] + BigEndian(n + 0x100, 1)
    else if n < 0 then [n + 0x100]
    else if n < 0x80 then [n]
    else if n < 0x100 then [0xcc] + BigEndian(n, 1)
    else if n < 0x1_0000 then [0xcd] + BigEndian(n, 2)
    else if n < 0x1_0000_0000 then [0xce] + BigEndian(n, 4)
    else [0xcf] + BigEndian(n, 8)
  }

  /** The form with the width of the integer's type. */
  function PackWide(t: IntType, n: int): seq<Byte>
    requires InRange(t, n)
  {
    match t
    case U8 => [0xcc] + BigEndian(n, 1)
    case U64 => [0xcf] + BigEndian(n, 8)
    case I32 => [0xd2] + BigEndian(if n < 0 then n + 0x1_0000_0000 else n, 4)
    case I64 => [0xd3] + BigEndian(if n < 0 then n + 0x1_0000_0000_0000_0000 else n, 8)
  }

  function PackStrHead(n: nat): seq<Byte>
    requires n < 0x1_0000_0000
  {
    if n < 32 then [0xa0 + n]
    else if n < 0x100 then [0xd9] + BigEndian(n, 1)
    else if n < 0x1_0000 then [0xda] + BigEndian(n, 2)
    else [0xdb] + BigEndian(n, 4)
  }

  function PackArrHead(n: nat): seq<Byte>
    requires n < 0x1_0000_0000
  {
    if n < 16 then [0x90 + n]
    else if n < 0x1_0000 then [0xdc] + BigEndian(n, 2)
    else [0xdd] + BigEndian(n, 4)
  }

  function PackMapHead(n: nat): seq<Byte>
    requires n < 0x1_0000_0000
  {
    if n < 16 then [0x80 + n]
    else if n < 0x1_0000 then [0xde] + BigEndian(n, 2)
    else [0xdf] + BigEndian(n, 4)
  }

  /** A reader's result: a value and the bytes after it, or not enough bytes, or a byte outside
      the families read here. */
  datatype Read<T> = Done(value: T, rest: seq<Byte>) | More | Bad

  /** How many bytes of number follow a head byte. */
  function Width(b: Byte): nat {
    if b == 0xcc || b == 0xd0 || b == 0xd9 then 1
    else if b == 0xcd || b == 0xd1 || b == 0xda || b == 0xdc || b == 0xde then 2
    else if b == 0xce || b == 0xd2 || b == 0xdb || b == 0xdd || b == 0xdf then 4
    else if b == 0xcf || b == 0xd3 then 8
    else 0
  }

  function Signed(n: nat, half: nat): int {
    if n < half then n else n - 2 * half
  }

  predicate KnownHead(b: Byte) {
    b < 0xc0 || b == 0xc2 || b == 0xc3 || 0xca <= b <= 0xd3 || 0xd9 <= b
  }

  function HeadOf(b: Byte, n: nat): Head
    requires KnownHead(b)
  {
    if b < 0x80 then HInt(b)
    else if b < 0x90 then HMap(b - 0x80)
    else if b < 0xa0 then HArr(b - 0x90)
    else if b < 0xc0 then HStr(b - 0xa0)
    else if b <= 0xc3 then HBool(b == 0xc3)
    else if b == 0xca then HFloat32
    else if b == 0xcb then HFloat64
    else if b <= 0xcf then HInt(n)
    else if b == 0xd0 then HInt(Signed(n, 0x80))
    else if b == 0xd1 then HInt(Signed(n, 0x8000))
    else if b == 0xd2 then HInt(Signed(n, 0x8000_0000))
    else if b == 0xd3 then HInt(Signed(n, 0x8000_0000_0000_0000))
    else if b <= 0xdb then HStr(n)
    else if b <= 0xdd then HArr(n)
    else if b <= 0xdf then HMap(n)
    else HInt(b - 0x100)
  }

  function ReadHead(s: seq<Byte>): (r: Read<Head>)
    ensures r.Done? ==> |r.rest| < |s|
  {
    if s == [] then More
    else if !KnownHead(s[0]) then Bad
    else if |s| < 1 + Width(s[0]) then More
    else Done(HeadOf(s[0], Number(s[1..1 + Width(s[0])])), s[1 + Width(s[0])..])
  }

  // ---------- the writer ----------

  predicate Packable(item: Item) {
    match item
    case Bool(_) => true
    case Int(t, n) => InRange(t, n)
    case Float32(bits) => |bits| == 4
    case Float64(bits) => |bits| == 8
    case Str(s) => |s| < 0x1_0000_0000
    case Arr(items) => |items| < 0x1_0000_0000 && forall i :: 0 <= i < |items| ==> Packable(items[i])
    case Map(flat) =>
      |flat| % 2 == 0 && |flat| / 2 < 0x1_0000_0000 && forall i :: 0 <= i < |flat| ==> Packable(flat[i])
  }

  predicate AllPackable(items: seq<Item>) {
    forall i :: 0 <= i < |items| ==> Packable(items[i])
  }

  function Pack(short: bool, item: Item): (s: seq<Byte>)
    requires Packable(item)
    decreases item, 0
  {
    match item
    case Bool(b) => [if b then 0xc3 else 0xc2]
    case Int(t, n) => if short then PackShort(n) else PackWide(t, n)
    case Float32(bits) => [0xca] + bits
    case Float64(bits) => [0xcb] + bits
    case Str(s) => PackStrHead(|s|) + s
    case Arr(items) => PackArrHead(|items|) + PackAll(short, items)
    case Map(flat) => PackMapHead(|flat| / 2) + PackAll(short, flat)
  }

  function PackAll(short: bool, items: seq<Item>): (s: seq<Byte>)
    requires AllPackable(items)
    decreases items, 1
  {
    if items == [] then [] else Pack(short, items[0]) + PackAll(short, items[1..])
  }

  // ---------- the reader ----------

  function Take(s: seq<Byte>, n: nat): Read<seq<Byte>> {
    if |s| < n then More else Done(s[..n], s[n..])
  }

  function Unpack(s: seq<Byte>): (r: Read<Val>)
    ensures r.Done? ==> |r.rest| < |s|
    decreases |s|, 0
  {
    match ReadHead(s)
    case More => More
    case Bad => Bad
    case Done(h, rest) =>
      match h
      case HBool(b) => Done(VBool(b), rest)
      case HInt(n) => Done(VInt(n), rest)
      case HFloat32 => (match Take(rest, 4) case Done(bits, r) => Done(VFloat32(bits), r) case _ => More)
      case HFloat64 => (match Take(rest, 8) case Done(bits, r) => Done(VFloat64(bits), r) case _ => More)
      case HStr(n) => (match Take(rest, n) case Done(str, r) => Done(VStr(str), r) case _ => More)
      case HArr(n) => (
        match UnpackMany(rest, n)
        case Done(items, r) => Done(VArr(items), r)
        case More => More
        case Bad => Bad)
      case HMap(n) => (
        match UnpackMany(rest, 2 * n)
        case Done(flat, r) => Done(VMap(flat), r)
        case More => More
        case Bad => Bad)
  }

  function UnpackMany(s: seq<Byte>, n: nat): (r: Read<seq<Val>>)
    ensures r.Done? ==> |r.rest| <= |s|
    decreases |s|, 1
  {
    if n == 0 then Done([], s)
    else match Unpack(s)
      case More => More
      case Bad => Bad
      case Done(v, rest) =>
        match UnpackMany(rest, n - 1)
        case More => More
        case Bad => Bad
        case Done(vs, r) => Done([v] + vs, r)
  }

  // ---------- round trips ----------

  lemma ReadsWidth(b: Byte, n: nat, rest: seq<Byte>)
    requires KnownHead(b) && Width(b) > 0 && n < Pow256(Width(b))
    ensures ReadHead([b] + BigEndian(n, Width(b)) + rest) == Done(HeadOf(b, n), rest)
  {
    var s := [b] + BigEndian(n, Width(b)) + rest;
    BigEndianReads(n, Width(b));
    assert s[1..1 + Width(b)] == BigEndian(n, Width(b));
    assert s[1 + Width(b)..] == rest;
  }

  lemma ReadsByte(b: Byte, rest: seq<Byte>)
    requires KnownHead(b) && Width(b) == 0
    ensures ReadHead([b] + rest) == Done(HeadOf(b, 0), rest)
  {
    assert ([b] + rest)[1..1] == [];
    assert ([b] + rest)[1..] == rest;
  }

  /** The shortest form of an integer reads back as the integer. */
  lemma ReadsShort(n: int, rest: seq<Byte>)
    requires -0x8000_0000_0000_0000 <= n < 0x1_0000_0000_0000_0000
    ensures ReadHead(PackShort(n) + rest) == Done(HInt(n), rest)
  {
    Powers();
    if n < -0x8000_0000 { ReadsWidth(0xd3, n + 0x1_0000_0000_0000_0000, rest); }
    else if n < -0x8000 { ReadsWidth(0xd2, n + 0x1_0000_0000, rest); }
    else if n < -0x80 { ReadsWidth(0xd1, n + 0x1_0000, rest); }
    else if n < -0x20 { ReadsWidth(0xd0, n + 0x100, rest); }
    else if n < 0 { ReadsByte(n + 0x100, rest); }
    else if n < 0x80 { ReadsByte(n, rest); }
    else if n < 0x100 { ReadsWidth(0xcc, n, rest); }
    else if n < 0x1_0000 { ReadsWidth(0xcd, n, rest); }
    else if n < 0x1_0000_0000 { ReadsWidth(0xce, n, rest); }
    else { ReadsWidth(0xcf, n, rest); }
  }

  lemma ReadsWide(t: IntType, n: int, rest: seq<Byte>)
    requires InRange(t, n)
    ensures ReadHead(PackWide(t, n) + rest) == Done(HInt(n), rest)
  {
    Powers();
    match t
    case U8 => ReadsWidth(0xcc, n, rest);
    case U64 => ReadsWidth(0xcf, n, rest);
    case I32 => ReadsWidth(0xd2, if n < 0 then n + 0x1_0000_0000 else n, rest);
    case I64 => ReadsWidth(0xd3, if n < 0 then n + 0x1_0000_0000_0000_0000 else n, rest);
  }

  lemma ReadsStrHead(n: nat, rest: seq<Byte>)
    requires n < 0x1_0000_0000
    ensures ReadHead(PackStrHead(n) + rest) == Done(HStr(n), rest)
  {
    if n < 32 {
      assert PackStrHead(n) == [0xa0 + n];
      ReadsByte(0xa0 + n, rest);
    } else {
      Powers();
      var b: Byte := if n < 0x100 then 0xd9 else if n < 0x1_0000 then 0xda else 0xdb;
      assert PackStrHead(n) == [b] + BigEndian(n, Width(b));
      ReadsWidth(b, n, rest);
    }
  }

  lemma ReadsArrHead(n: nat, rest: seq<Byte>)
    requires n < 0x1_0000_0000
    ensures ReadHead(PackArrHead(n) + rest) == Done(HArr(n), rest)
  {
    Powers();
    if n < 16 { ReadsByte(0x90 + n, rest); }
    else if n < 0x1_0000 { ReadsWidth(0xdc, n, rest); }
    else { ReadsWidth(0xdd, n, rest); }
  }

  lemma ReadsMapHead(n: nat, rest: seq<Byte>)
    requires n < 0x1_0000_0000
    ensures ReadHead(PackMapHead(n) + rest) == Done(HMap(n), rest)
  {
    Powers();
    if n < 16 { ReadsByte(0x80 + n, rest); }
    else if n < 0x1_0000 { ReadsWidth(0xde, n, rest); }
    else { ReadsWidth(0xdf, n, rest); }
  }

  lemma TakesAll(a: seq<Byte>, rest: seq<Byte>)
    ensures Take(a + rest, |a|) == Done(a, rest)
  {
  }

  lemma UnpackScalar(short: bool, item: Item, rest: seq<Byte>)
    requires Packable(item) && (item.Bool? || item.Int?)
    ensures Unpack(Pack(short, item) + rest) == Done(Meaning(item), rest)
  {
    match item
    case Bool(b) => ReadsByte(if b then 0xc3 else 0xc2, rest);
    case Int(t, n) =>
      if short { ReadsShort(n, rest); } else { ReadsWide(t, n, rest); }
  }

  lemma UnpackFloat(short: bool, item: Item, rest: seq<Byte>)
    requires Packable(item) && (item.Float32? || item.Float64?)
    ensures Unpack(Pack(short, item) + rest) == Done(Meaning(item), rest)
  {
    var head: Byte := if item.Float32? then 0xca else 0xcb;
    ReadsByte(head, item.bits + rest);
    assert Pack(short, item) + rest == [head] + (item.bits + rest);
    TakesAll(item.bits, rest);
  }

  lemma UnpackStr(short: bool, str: seq<Byte>, rest: seq<Byte>)
    requires Packable(Str(str))
    ensures Unpack(Pack(short, Str(str)) + rest) == Done(VStr(str), rest)
  {
    ReadsStrHead(|str|, str + rest);
    assert Pack(short, Str(str)) + rest == PackStrHead(|str|) + (str + rest);
    TakesAll(str, rest);
  }

  lemma UnpackWithHead(s: seq<Byte>, n: nat, r: seq<Byte>, vals: seq<Val>, rest: seq<Byte>)
    ensures ReadHead(s) == Done(HArr(n), r) && UnpackMany(r, n) == Done(vals, rest)
      ==> Unpack(s) == Done(VArr(vals), rest)
    ensures ReadHead(s) == Done(HMap(n), r) && UnpackMany(r, 2 * n) == Done(vals, rest)
      ==> Unpack(s) == Done(VMap(vals), rest)
  {
  }

  lemma UnpackArr(head: seq<Byte>, body: seq<Byte>, rest: seq<Byte>, n: nat, vals: seq<Val>)
    requires n < 0x1_0000_0000 && head == PackArrHead(n) && UnpackMany(body + rest, n) == Done(vals, rest)
    ensures Unpack((head + body) + rest) == Done(VArr(vals), rest)
  {
    ReadsArrHead(n, body + rest);
    Associative(head, body, rest);
    UnpackWithHead(head + (body + rest), n, body + rest, vals, rest);
  }

  lemma UnpackMap(head: seq<Byte>, body: seq<Byte>, rest: seq<Byte>, n: nat, vals: seq<Val>)
    requires n < 0x1_0000_0000 && head == PackMapHead(n) && UnpackMany(body + rest, 2 * n) == Done(vals, rest)
    ensures Unpack((head + body) + rest) == Done(VMap(vals), rest)
  {
    ReadsMapHead(n, body + rest);
    Associative(head, body, rest);
    UnpackWithHead(head + (body + rest), n, body + rest, vals, rest);
  }

  /** Whatever follows it, a packed value unpacks to its meaning and leaves what follows. */
  lemma {:induction false} UnpackPacked(short: bool, item: Item, rest: seq<Byte>)
    requires Packable(item)
    ensures Unpack(Pack(short, item) + rest) == Done(Meaning(item), rest)
    decreases item, 0
  {
    if item.Arr? {
      UnpackPackedAll(short, item.items, rest);
      UnpackArr(PackArrHead(|item.items|), PackAll(short, item.items), rest, |item.items|, Meanings(item.items));
    } else if item.Map? {
      UnpackPackedAll(short, item.flat, rest);
      assert 2 * (|item.flat| / 2) == |item.flat|;
      UnpackMap(PackMapHead(|item.flat| / 2), PackAll(short, item.flat), rest, |item.flat| / 2, Meanings(item.flat));
    } else if item.Str? {
      UnpackStr(short, item.s, rest);
    } else if item.Float32? || item.Float64? {
      UnpackFloat(short, item, rest);
    } else {
      UnpackScalar(short, item, rest);
    }
  }

  lemma {:induction false} UnpackPackedAll(short: bool, items: seq<Item>, rest: seq<Byte>)
    requires AllPackable(items)
    ensures UnpackMany(PackAll(short, items) + rest, |items|) == Done(Meanings(items), rest)
    decreases items, 1
  {
    if items == [] {
      assert PackAll(short, items) + rest == rest;
    } else {
      var more := PackAll(short, items[1..]) + rest;
      assert PackAll(short, items) + rest == Pack(short, items[0]) + more;
      UnpackPacked(short, items[0], more);
      UnpackPackedAll(short, items[1..], rest);
    }
  }

  // ---------- reading is not disturbed by more bytes ----------

  lemma ReadHeadExtends(s: seq<Byte>, q: seq<Byte>)
    ensures match ReadHead(s)
            case Done(h, rest) => ReadHead(s + q) == Done(h, rest + q)
            case Bad => ReadHead(s + q) == Bad
            case More => true
  {
    if ReadHead(s).Done? {
      var w := Width(s[0]);
      assert (s + q)[1..1 + w] == s[1..1 + w];
      assert (s + q)[1 + w..] == s[1 + w..] + q;
    }
  }

  lemma TakeExtends(s: seq<Byte>, n: nat, q: seq<Byte>)
    requires n <= |s|
    ensures Take(s + q, n) == Done(s[..n], s[n..] + q)
  {
    assert (s + q)[..n] == s[..n] && (s + q)[n..] == s[n..] + q;
  }

  /** A result once reached stays, whatever bytes arrive later. */
  lemma {:induction false} UnpackExtends(s: seq<Byte>, q: seq<Byte>)
    ensures match Unpack(s)
            case Done(v, rest) => Unpack(s + q) == Done(v, rest + q)
            case Bad => Unpack(s + q) == Bad
            case More => true
    decreases |s|, 0
  {
    ReadHeadExtends(s, q);
    if ReadHead(s).Done? {
      var h, rest := ReadHead(s).value, ReadHead(s).rest;
      match h
      case HFloat32 => if 4 <= |rest| { TakeExtends(rest, 4, q); }
      case HFloat64 => if 8 <= |rest| { TakeExtends(rest, 8, q); }
      case HStr(n) => if n <= |rest| { TakeExtends(rest, n, q); }
      case HArr(n) => UnpackManyExtends(rest, n, q);
      case HMap(n) => UnpackManyExtends(rest, 2 * n, q);
      case _ =>
    }
  }

  lemma {:induction false} UnpackManyExtends(s: seq<Byte>, n: nat, q: seq<Byte>)
    ensures match UnpackMany(s, n)
            case Done(vs, rest) => UnpackMany(s + q, n) == Done(vs, rest + q)
            case Bad => UnpackMany(s + q, n) == Bad
            case More => true
    decreases |s|, 1
  {
    if n > 0 {
      UnpackExtends(s, q);
      if Unpack(s).Done? {
        UnpackManyExtends(Unpack(s).rest, n - 1, q);
      }
    }
  }

  /** No proper prefix of a packed value reads as a value: the stream needs no delimiters. */
  lemma PrefixIsIncomplete(short: bool, item: Item, p: seq<Byte>, q: seq<Byte>)
    requires Packable(item) && p + q == Pack(short, item) && q != []
    ensures Unpack(p) == More
  {
    UnpackPacked(short, item, []);
    assert Pack(short, item) + [] == p + q;
    UnpackExtends(p, q);
  }
}

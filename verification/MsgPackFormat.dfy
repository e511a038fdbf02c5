/** The MessagePack encoding of Json values, and the meaning of each header.
  Sources: msgpack.hh (format, sized_writer, unparser), msgpack.cc (nbytes).
  Formats as in the MessagePack specification, section "Formats". */
module MsgPackFormat {
  type Byte = b: nat | b < 256
  type Bytes = seq<Byte>

  /** A Json value.  Integers keep the type they are stored with; floating-point numbers are the
      bytes they are sent as; an object's members are in the order of their insertion. */
  datatype Json =
    | Null
    | Bool(b: bool)
    | Int(i: int)
    | Unsigned(u: nat)
    | Double(bits: Bytes)
    | Str(s: Bytes)
    | Arr(a: seq<Json>)
    | Obj(o: seq<Member>)
  datatype Member = Member(key: Bytes, value: Json)

  // ----- numbers in network order

  function Pow(k: nat): (p: nat)
    ensures p > 0
  {
    if k == 0 then 1 else 256 * Pow(k - 1)
  }

  /** `write_in_net_order`. */
  function Net(v: nat, k: nat): (r: Bytes)
    ensures |r| == k
  {
    if k == 0 then [] else Net(v / 256, k - 1) + [v % 256]
  }

  /** `read_in_net_order`, of an unsigned type. */
  function Number(bs: Bytes): nat {
    if bs == [] then 0 else 256 * Number(bs[..|bs| - 1]) + bs[|bs| - 1]
  }

  /** A number of `k` bytes read as a signed one. */
  function Signed(v: nat, k: nat): int { if 2 * v < Pow(k) then v else v - Pow(k) }

  /** A signed number as it is stored in `k` bytes. */
  function Stored(v: int, k: nat): nat
    requires v + Pow(k) >= 0
  {
    if v >= 0 then v else v + Pow(k)
  }

  lemma {:induction false} NetNumber(v: nat, k: nat)
    requires v < Pow(k)
    ensures Number(Net(v, k)) == v
  {
    if k > 0 {
      NetNumber(v / 256, k - 1);
      assert Net(v, k)[..k - 1] == Net(v / 256, k - 1);
    }
  }

  lemma Pows()
    ensures Pow(1) == 0x100 && Pow(2) == 0x1_0000 && Pow(4) == 0x1_0000_0000 && Pow(8) == 0x1_0000_0000_0000_0000
  {
    assert Pow(3) == 0x100_0000;
    assert Pow(4) == 0x1_0000_0000;
    assert Pow(5) == 0x100_0000_0000;
    assert Pow(6) == 0x1_0000_0000_0000;
    assert Pow(7) == 0x100_0000_0000_0000;
  }

  // ----- headers

  const FFIXMAP := 0x80
  const FFIXARRAY := 0x90
  const FFIXSTR := 0xA0
  const FNULL := 0xC0
  const FFALSE := 0xC2
  const FBIN8 := 0xC4
  const FFLOAT32 := 0xCA
  const FFLOAT64 := 0xCB
  const FUINT8 := 0xCC
  const FINT8 := 0xD0
  const FSTR8 := 0xD9
  const FARRAY16 := 0xDC
  const FMAP16 := 0xDE

  predicate IsFixint(b: Byte) { b < 0x80 || b >= 0xE0 }
  predicate IsFixmap(b: Byte) { FFIXMAP <= b < FFIXMAP + 0x10 }
  predicate IsFixarray(b: Byte) { FFIXARRAY <= b < FFIXARRAY + 0x10 }
  predicate IsFixstr(b: Byte) { FFIXSTR <= b < FFIXSTR + 0x20 }
  predicate IsBool(b: Byte) { FFALSE <= b < FFALSE + 2 }

  /** A header of one byte. */
  predicate IsFix(b: Byte) { IsFixint(b) || b == FNULL || IsBool(b) || IsFixmap(b) || IsFixarray(b) || IsFixstr(b) }

  /** `nbytes`, from 0xC0 on: the length of other headers, 0 for types that are not read. */
  const NBYTES: seq<nat> := [
    0, 0, 0, 0,
    2, 3, 5,
    0, 0, 0,
    5, 9,
    2, 3, 5, 9, 2, 3, 5, 9,
    0, 0, 0, 0, 0,
    2, 3, 5,
    3, 5,
    3, 5]

  /** How many bytes the header has that starts with `b`. */
  function HeaderSize(b: Byte): nat {
    if IsFix(b) then 1 else NBYTES[b - FNULL]
  }

  predicate IsHeader(h: Bytes) { h != [] && |h| == HeaderSize(h[0]) }

  /** What a header announces: a value, or how many bytes, elements or members follow. */
  datatype Token = Scalar(v: Json) | Raw(n: nat) | ArrayOf(n: nat) | MapOf(n: nat)

  function Decode(h: Bytes): Token
    requires IsHeader(h)
  {
    var b, v := h[0], Number(h[1..]);
    if IsFixint(b) then Scalar(Int(if b < 0x80 then b else b - 0x100))
    else if b == FNULL then Scalar(Null)
    else if IsBool(b) then Scalar(Bool(b != FFALSE))
    else if IsFixmap(b) then MapOf(b - FFIXMAP)
    else if IsFixarray(b) then ArrayOf(b - FFIXARRAY)
    else if IsFixstr(b) then Raw(b - FFIXSTR)
    else if b == FFLOAT32 || b == FFLOAT64 then Scalar(Double(h[1..]))
    else if FUINT8 <= b < FUINT8 + 2 then Scalar(Int(v))
    else if FUINT8 + 2 <= b < FINT8 then Scalar(Unsigned(v))
    else if FINT8 <= b < FINT8 + 4 then Scalar(Int(Signed(v, |h| - 1)))
    else if FBIN8 <= b < FBIN8 + 3 || FSTR8 <= b < FSTR8 + 3 then Raw(v)
    else if FARRAY16 <= b < FMAP16 then ArrayOf(v)
    else MapOf(v)
  }

  // ----- writers

  function WriteUnsigned(x: nat): Bytes {
    if x < 0x80 then [x]
    else if x < 0x100 then [FUINT8] + Net(x, 1)
    else if x < 0x1_0000 then [FUINT8 + 1] + Net(x, 2)
    else if x < 0x1_0000_0000 then [FUINT8 + 2] + Net(x, 4)
    else [FUINT8 + 3] + Net(x, 8)
  }

  predicate IsInt64(x: int) { -0x8000_0000_0000_0000 <= x < 0x8000_0000_0000_0000 }

  function WriteSigned(x: int): Bytes
    requires IsInt64(x)
  {
    Pows();
    if -0x20 <= x < 0x80 then [if x < 0 then x + 0x100 else x]
    else if -0x80 <= x < 0x80 then [FINT8] + Net(Stored(x, 1), 1)
    else if -0x8000 <= x < 0x8000 then [FINT8 + 1] + Net(Stored(x, 2), 2)
    else if -0x8000_0000 <= x < 0x8000_0000 then [FINT8 + 2] + Net(Stored(x, 4), 4)
    else [FINT8 + 3] + Net(Stored(x, 8), 8)
  }

  function StringHeader(n: nat): Bytes {
    if n < 0x20 then [FFIXSTR + n]
    else if n < 0x100 then [FSTR8] + Net(n, 1)
    else if n < 0x1_0000 then [FSTR8 + 1] + Net(n, 2)
    else [FSTR8 + 2] + Net(n, 4)
  }

  function ArrayHeader(n: nat): Bytes {
    if n < 0x10 then [FFIXARRAY + n]
    else if n < 0x1_0000 then [FARRAY16] + Net(n, 2)
    else [FARRAY16 + 1] + Net(n, 4)
  }

  function MapHeader(n: nat): Bytes {
    if n < 0x10 then [FFIXMAP + n]
    else if n < 0x1_0000 then [FMAP16] + Net(n, 2)
    else [FMAP16 + 1] + Net(n, 4)
  }

  function WriteString(s: Bytes): Bytes { StringHeader(|s|) + s }

  // ----- values that can be encoded

  const LIMIT := 0x8000_0000

  predicate KeysDiffer(o: seq<Member>) {
    forall i, j :: 0 <= i < j < |o| ==> o[i].key != o[j].key
  }

  predicate Encodable(j: Json) {
    match j
    case Null => true
    case Bool(_) => true
    case Int(i) => IsInt64(i)
    case Unsigned(u) => u < 0x1_0000_0000_0000_0000
    case Double(bits) => |bits| == 8
    case Str(s) => |s| < LIMIT
    case Arr(a) => |a| < LIMIT && AllEncodable(a)
    case Obj(o) => |o| < LIMIT && KeysDiffer(o) && MembersEncodable(o)
  }

  predicate AllEncodable(a: seq<Json>) {
    forall i :: 0 <= i < |a| ==> Encodable(a[i])
  }

  predicate MembersEncodable(o: seq<Member>) {
    forall i :: 0 <= i < |o| ==> |o[i].key| < LIMIT && Encodable(o[i].value)
  }

  /** The encoding. */
  function Encoded(j: Json): Bytes
    requires Encodable(j)
  {
    match j
    case Null => [FNULL]
    case Bool(b) => [if b then FFALSE + 1 else FFALSE]
    case Int(i) => WriteSigned(i)
    case Unsigned(u) => WriteUnsigned(u)
    case Double(bits) => [FFLOAT64] + bits
    case Str(s) => WriteString(s)
    case Arr(a) => ArrayHeader(|a|) + EncodedAll(a)
    case Obj(o) => MapHeader(|o|) + EncodedMembers(o)
  }

  function EncodedAll(a: seq<Json>): Bytes
    requires AllEncodable(a)
  {
    if a == [] then [] else Encoded(a[0]) + EncodedAll(a[1..])
  }

  function EncodedMembers(o: seq<Member>): Bytes
    requires MembersEncodable(o)
  {
    if o == [] then [] else WriteString(o[0].key) + Encoded(o[0].value) + EncodedMembers(o[1..])
  }

  /** The value as it is read back: small unsigned integers are read as signed ones. */
  function ReadBack(j: Json): Json {
    match j
    case Unsigned(u) => if u < 0x1_0000 then Int(u) else j
    case Arr(a) => Arr(ReadBackAll(a))
    case Obj(o) => Obj(ReadBackMembers(o))
    case _ => j
  }

  function ReadBackAll(a: seq<Json>): (r: seq<Json>)
    ensures |r| == |a| && forall i :: 0 <= i < |a| ==> r[i] == ReadBack(a[i])
  {
    if a == [] then [] else [ReadBack(a[0])] + ReadBackAll(a[1..])
  }

  function ReadBackMembers(o: seq<Member>): (r: seq<Member>)
    ensures |r| == |o| && forall i :: 0 <= i < |o| ==> r[i] == Member(o[i].key, ReadBack(o[i].value))
  {
    if o == [] then [] else [Member(o[0].key, ReadBack(o[0].value))] + ReadBackMembers(o[1..])
  }

  /** Equality of values, whatever the types of their integers. */
  predicate Equal(a: Json, b: Json) {
    match a
    case Int(i) => (b.Int? && i == b.i) || (b.Unsigned? && i == b.u)
    case Unsigned(u) => (b.Int? && u == b.i) || (b.Unsigned? && u == b.u)
    case Arr(s) => b.Arr? && |s| == |b.a| && forall i :: 0 <= i < |s| ==> Equal(s[i], b.a[i])
    case Obj(s) => b.Obj? && |s| == |b.o| && forall i :: 0 <= i < |s| ==> s[i].key == b.o[i].key && Equal(s[i].value, b.o[i].value)
    case _ => a == b
  }

  lemma {:induction false} ReadBackIsEqual(j: Json)
    ensures Equal(j, ReadBack(j))
  {
    match j {
      case Arr(a) =>
        forall i | 0 <= i < |a|
          ensures Equal(a[i], ReadBackAll(a)[i])
        {
          ReadBackIsEqual(a[i]);
        }
      case Obj(o) =>
        forall i | 0 <= i < |o|
          ensures Equal(o[i].value, ReadBackMembers(o)[i].value)
        {
          ReadBackIsEqual(o[i].value);
        }
      case _ =>
    }
  }

  // ----- headers are read as they are written

  lemma TailIs(b: Byte, t: Bytes)
    ensures ([b] + t)[1..] == t && ([b] + t)[0] == b
  {
  }

  /** A type byte and a number behind it. */
  lemma HeaderOf(t: Byte, n: nat, k: nat)
    requires n < Pow(k)
    ensures
      var h := [t] + Net(n, k);
      |h| == k + 1 && h[0] == t && Number(h[1..]) == n
  {
    TailIs(t, Net(n, k));
    NetNumber(n, k);
  }

  /** The length of the number behind a type byte. */
  function Width(t: Byte): nat
    requires FUINT8 <= t < FINT8 + 4
  {
    match (t - FUINT8) % 4
    case 0 => 1
    case 1 => 2
    case 2 => 4
    case _ => 8
  }

  lemma UnsignedHeaderIsRead(t: Byte, x: nat)
    requires FUINT8 <= t < FINT8 && x < Pow(Width(t))
    ensures
      var h := [t] + Net(x, Width(t));
      IsHeader(h) && Decode(h) == Scalar(if t < FUINT8 + 2 then Int(x) else Unsigned(x))
  {
    HeaderOf(t, x, Width(t));
    hide Net, Number, Pow;
  }

  lemma UnsignedIsRead(x: nat)
    requires x < 0x1_0000_0000_0000_0000
    ensures IsHeader(WriteUnsigned(x)) && Decode(WriteUnsigned(x)) == Scalar(ReadBack(Unsigned(x)))
  {
    Pows();
    if x >= 0x80 {
      hide Net, Number, Pow, Decode, IsHeader;
      if x < 0x100 {
        UnsignedHeaderIsRead(FUINT8, x);
      } else if x < 0x1_0000 {
        UnsignedHeaderIsRead(FUINT8 + 1, x);
      } else if x < 0x1_0000_0000 {
        UnsignedHeaderIsRead(FUINT8 + 2, x);
      } else {
        UnsignedHeaderIsRead(FUINT8 + 3, x);
      }
    }
  }

  lemma SignedStored(x: int, k: nat)
    requires 0 <= 2 * x + Pow(k) && 2 * x < Pow(k)
    ensures Stored(x, k) < Pow(k) && Signed(Stored(x, k), k) == x
  {
  }

  lemma SignedHeaderIsRead(t: Byte, x: int)
    requires FINT8 <= t < FINT8 + 4 && 0 <= 2 * x + Pow(Width(t)) && 2 * x < Pow(Width(t))
    ensures
      var h := [t] + Net(Stored(x, Width(t)), Width(t));
      IsHeader(h) && Decode(h) == Scalar(Int(x))
  {
    SignedStored(x, Width(t));
    HeaderOf(t, Stored(x, Width(t)), Width(t));
    hide Net, Number, Pow, Signed, Stored;
  }

  lemma SignedIsRead(x: int)
    requires IsInt64(x)
    ensures IsHeader(WriteSigned(x)) && Decode(WriteSigned(x)) == Scalar(Int(x))
  {
    Pows();
    if !(-0x20 <= x < 0x80) {
      hide Net, Number, Pow, Decode, IsHeader, Stored;
      if -0x80 <= x < 0x80 {
        SignedHeaderIsRead(FINT8, x);
      } else if -0x8000 <= x < 0x8000 {
        SignedHeaderIsRead(FINT8 + 1, x);
      } else if -0x8000_0000 <= x < 0x8000_0000 {
        SignedHeaderIsRead(FINT8 + 2, x);
      } else {
        SignedHeaderIsRead(FINT8 + 3, x);
      }
    }
  }

  lemma StringHeaderIsRead(n: nat)
    requires n < LIMIT
    ensures IsHeader(StringHeader(n)) && Decode(StringHeader(n)) == Raw(n)
  {
    Pows();
    if n >= 0x20 {
      var k, t := if n < 0x100 then 1 else if n < 0x1_0000 then 2 else 4, if n < 0x100 then FSTR8 else if n < 0x1_0000 then FSTR8 + 1 else FSTR8 + 2;
      HeaderOf(t, n, k);
    }
  }

  lemma ArrayHeaderIsRead(n: nat)
    requires n < LIMIT
    ensures IsHeader(ArrayHeader(n)) && Decode(ArrayHeader(n)) == ArrayOf(n)
  {
    Pows();
    if n >= 0x10 {
      HeaderOf(if n < 0x1_0000 then FARRAY16 else FARRAY16 + 1, n, if n < 0x1_0000 then 2 else 4);
    }
  }

  lemma MapHeaderIsRead(n: nat)
    requires n < LIMIT
    ensures IsHeader(MapHeader(n)) && Decode(MapHeader(n)) == MapOf(n)
  {
    Pows();
    if n >= 0x10 {
      HeaderOf(if n < 0x1_0000 then FMAP16 else FMAP16 + 1, n, if n < 0x1_0000 then 2 else 4);
    }
  }

  // ----- the bytes on the wire, as the specification's section "Formats" has them

  /** The length of the header that each first byte starts; 0 for the bytes that are not read: the one that is never
      used, and the extension types. */
  lemma HeaderSizeIs(b: Byte)
    ensures HeaderSize(b) ==
      if b == 0xC1 || 0xC7 <= b <= 0xC9 || 0xD4 <= b <= 0xD8 then 0
      else if b == 0xC4 || b == 0xCC || b == 0xD0 || b == 0xD9 then 2
      else if b == 0xC5 || b == 0xCD || b == 0xD1 || b == 0xDA || b == 0xDC || b == 0xDE then 3
      else if b == 0xC6 || b == 0xCA || b == 0xCE || b == 0xD2 || b == 0xDB || b == 0xDD || b == 0xDF then 5
      else if b == 0xCB || b == 0xCF || b == 0xD3 then 9
      else 1
  {
  }

  /** The most significant byte comes first. */
  function BigEndian(bs: Bytes): nat {
    if |bs| == 1 then bs[0]
    else if |bs| == 2 then 0x100 * bs[0] + bs[1]
    else if |bs| == 4 then 0x100_0000 * bs[0] + 0x1_0000 * bs[1] + 0x100 * bs[2] + bs[3]
    else if |bs| == 8 then 0x1_0000_0000 * BigEndian(bs[..4]) + BigEndian(bs[4..])
    else 0
  }

  lemma NumberOfTwo(a: Bytes, b: Byte)
    ensures Number(a + [b]) == 256 * Number(a) + b
  {
    assert (a + [b])[..|a|] == a;
  }

  lemma NumberOfFour(a: nat, bs: Bytes, s: Bytes)
    requires |bs| == 4 && Number(s) == a
    ensures Number(s + bs) == 0x1_0000_0000 * a + BigEndian(bs)
  {
    hide Number;
    var s1, s2, s3 := s + [bs[0]], s + [bs[0]] + [bs[1]], s + [bs[0]] + [bs[1]] + [bs[2]];
    NumberOfTwo(s, bs[0]);
    NumberOfTwo(s1, bs[1]);
    NumberOfTwo(s2, bs[2]);
    NumberOfTwo(s3, bs[3]);
    assert s + bs == s3 + [bs[3]];
  }

  lemma NumberIsBigEndian(bs: Bytes)
    requires |bs| == 1 || |bs| == 2 || |bs| == 4 || |bs| == 8
    ensures Number(bs) == BigEndian(bs)
  {
    if |bs| == 1 {
      assert bs == [] + [bs[0]];
    } else if |bs| == 2 {
      NumberOfTwo([], bs[0]);
      NumberOfTwo([bs[0]], bs[1]);
      assert bs == [bs[0]] + [bs[1]] && [] + [bs[0]] == [bs[0]];
    } else if |bs| == 4 {
      NumberOfFour(0, bs, []);
      assert [] + bs == bs;
    } else {
      var a, b := bs[..4], bs[4..];
      NumberOfFour(0, a, []);
      assert [] + a == a && a + b == bs;
      NumberOfFour(BigEndian(a), b, a);
    }
  }

  /** Two's complement. */
  function TwosComplement(v: nat, limit: nat): int { if 2 * v < limit then v else v - limit }

  /** What each header of one byte announces. */
  lemma ShortHeaderMeans(b: Byte)
    requires HeaderSize(b) == 1
    ensures IsHeader([b])
    ensures Decode([b]) ==
      if b < 0x80 then Scalar(Int(b))
      else if b < 0x90 then MapOf(b - 0x80)
      else if b < 0xA0 then ArrayOf(b - 0x90)
      else if b < 0xC0 then Raw(b - 0xA0)
      else if b == 0xC0 then Scalar(Null)
      else if b == 0xC2 then Scalar(Bool(false))
      else if b == 0xC3 then Scalar(Bool(true))
      else Scalar(Int(b - 0x100))
  {
    HeaderSizeIs(b);
  }

  /** What each longer header announces. */
  lemma LongHeaderMeans(h: Bytes)
    requires IsHeader(h) && |h| > 1
    ensures
      var b, v := h[0], BigEndian(h[1..]);
      Decode(h) ==
        if b == 0xCA || b == 0xCB then Scalar(Double(h[1..]))
        else if b == 0xCC || b == 0xCD then Scalar(Int(v))
        else if b == 0xCE || b == 0xCF then Scalar(Unsigned(v))
        else if b == 0xD0 then Scalar(Int(TwosComplement(v, 0x100)))
        else if b == 0xD1 then Scalar(Int(TwosComplement(v, 0x1_0000)))
        else if b == 0xD2 then Scalar(Int(TwosComplement(v, 0x1_0000_0000)))
        else if b == 0xD3 then Scalar(Int(TwosComplement(v, 0x1_0000_0000_0000_0000)))
        else if 0xC4 <= b <= 0xC6 || 0xD9 <= b <= 0xDB then Raw(v)
        else if b == 0xDC || b == 0xDD then ArrayOf(v)
        else MapOf(v)
  {
    HeaderSizeIs(h[0]);
    NumberIsBigEndian(h[1..]);
    Pows();
    hide Number, BigEndian, Pow, HeaderSize;
  }

  lemma NetLast(v: nat, k: nat)
    ensures Net(v, k + 1) == Net(v / 0x100, k) + [v % 0x100]
  {
  }

  lemma NetFour(v: nat)
    ensures Net(v, 2) == [v / 0x100 % 0x100, v % 0x100]
    ensures Net(v, 4) == [v / 0x100_0000 % 0x100, v / 0x1_0000 % 0x100, v / 0x100 % 0x100, v % 0x100]
  {
    hide Net;
    NetLast(v, 1);
    NetLast(v, 3);
    NetLast(v / 0x100, 2);
    NetLast(v / 0x1_0000, 1);
    NetOne(v / 0x100);
    NetOne(v / 0x100_0000);
  }

  /** A number as it is sent: the most significant byte first. */
  lemma NetIs(v: nat)
    ensures Net(v, 1) == [v % 0x100]
    ensures Net(v, 2) == [v / 0x100 % 0x100, v % 0x100]
    ensures Net(v, 4) == [v / 0x100_0000 % 0x100, v / 0x1_0000 % 0x100, v / 0x100 % 0x100, v % 0x100]
    ensures Net(v, 8) == Net(v / 0x1_0000_0000, 4) + Net(v, 4)
  {
    NetOne(v);
    NetFour(v);
    NetEight(v);
  }

  lemma NetEight(v: nat)
    ensures Net(v, 8) == Net(v / 0x1_0000_0000, 4) + Net(v, 4)
  {
    hide Net;
    NetFour(v);
    var w := v / 0x1_0000_0000;
    NetLast(v, 7);
    assert Net(v / 0x100, 7) == Net(v / 0x1_0000, 6) + [v / 0x100 % 0x100] by { NetLast(v / 0x100, 6); }
    assert Net(v / 0x1_0000, 6) == Net(v / 0x100_0000, 5) + [v / 0x1_0000 % 0x100] by { NetLast(v / 0x1_0000, 5); }
    assert Net(v / 0x100_0000, 5) == Net(w, 4) + [v / 0x100_0000 % 0x100] by { NetLast(v / 0x100_0000, 4); }
    JoinFour(Net(w, 4), v / 0x100_0000 % 0x100, v / 0x1_0000 % 0x100, v / 0x100 % 0x100, v % 0x100);
  }

  lemma JoinFour(s: Bytes, a: Byte, b: Byte, c: Byte, d: Byte)
    ensures s + [a] + [b] + [c] + [d] == s + [a, b, c, d]
  {
  }

  lemma NetOne(v: nat)
    ensures Net(v, 1) == [v % 0x100]
  {
    assert Net(v / 256, 0) == [];
  }

  /** Values of one byte, and floating-point numbers. */
  lemma ConstantsOnTheWire(bits: Bytes)
    requires |bits| == 8
    ensures Encoded(Null) == [0xC0] && Encoded(Bool(false)) == [0xC2] && Encoded(Bool(true)) == [0xC3]
    ensures Encoded(Double(bits)) == [0xCB] + bits
  {
  }

  /** Signed numbers, in two's complement. */
  lemma SignedOnTheWire(x: int)
    requires IsInt64(x)
    ensures
      var bytes := Encoded(Int(x));
      if 0 <= x < 0x80 then bytes == [x]
      else if -0x20 <= x < 0 then bytes == [0x100 + x]
      else if -0x80 <= x < 0 then bytes == [0xD0, 0x100 + x]
      else if -0x8000 <= x < 0x8000 then bytes == [0xD1] + Net(if x < 0 then x + 0x1_0000 else x, 2)
      else if -0x8000_0000 <= x < 0x8000_0000 then bytes == [0xD2] + Net(if x < 0 then x + 0x1_0000_0000 else x, 4)
      else bytes == [0xD3] + Net(if x < 0 then x + 0x1_0000_0000_0000_0000 else x, 8)
  {
    Pows();
    if -0x80 <= x < -0x20 {
      NetOne(x + 0x100);
    }
    hide Net, Pow;
  }

  /** Unsigned numbers. */
  lemma UnsignedOnTheWire(x: nat)
    requires x < 0x1_0000_0000_0000_0000
    ensures
      var bytes := Encoded(Unsigned(x));
      if x < 0x80 then bytes == [x]
      else if x < 0x100 then bytes == [0xCC, x]
      else if x < 0x1_0000 then bytes == [0xCD] + Net(x, 2)
      else if x < 0x1_0000_0000 then bytes == [0xCE] + Net(x, 4)
      else bytes == [0xCF] + Net(x, 8)
  {
    NetOne(x);
    hide Net;
  }

  /** A string: its length, then its bytes. */
  lemma StringOnTheWire(s: Bytes)
    requires |s| < 0x8000_0000
    ensures
      var bytes, n := Encoded(Str(s)), |s|;
      if n < 0x20 then bytes == [0xA0 + n] + s
      else if n < 0x100 then bytes == [0xD9, n] + s
      else if n < 0x1_0000 then bytes == [0xDA] + Net(n, 2) + s
      else bytes == [0xDB] + Net(n, 4) + s
  {
    NetOne(|s|);
    hide Net;
  }

  /** All encodings one after the other. */
  ghost predicate Listed(pieces: seq<Bytes>, bytes: Bytes)
    decreases |pieces|
  {
    if pieces == [] then bytes == [] else pieces[0] <= bytes && Listed(pieces[1..], bytes[|pieces[0]|..])
  }

  /** An array: its size, then its elements in order. */
  lemma ArrayOnTheWire(a: seq<Json>)
    requires Encodable(Arr(a))
    ensures
      var n := |a|;
      var header: Bytes := if n < 0x10 then [0x90 + n] else if n < 0x1_0000 then [0xDC] + Net(n, 2) else [0xDD] + Net(n, 4);
      var bytes := Encoded(Arr(a));
      && header <= bytes && AllEncodable(a)
      && Listed(seq(n, i requires 0 <= i < n && Encodable(a[i]) => Encoded(a[i])), bytes[|header|..])
  {
    hide Net;
    ElementsListed(a);
    assert (ArrayHeader(|a|) + EncodedAll(a))[|ArrayHeader(|a|)|..] == EncodedAll(a);
  }

  lemma {:induction false} ElementsListed(a: seq<Json>)
    requires AllEncodable(a)
    ensures Listed(seq(|a|, i requires 0 <= i < |a| && Encodable(a[i]) => Encoded(a[i])), EncodedAll(a))
    decreases |a|
  {
    if a != [] {
      ElementsListed(a[1..]);
      var pieces := seq(|a|, i requires 0 <= i < |a| && Encodable(a[i]) => Encoded(a[i]));
      assert pieces[1..] == seq(|a[1..]|, i requires 0 <= i < |a[1..]| && Encodable(a[1..][i]) => Encoded(a[1..][i]));
      assert EncodedAll(a)[|Encoded(a[0])|..] == EncodedAll(a[1..]);
    }
  }

  /** An object: its size, then its members in order, each a string and a value. */
  lemma ObjectOnTheWire(o: seq<Member>)
    requires Encodable(Obj(o))
    ensures
      var n := |o|;
      var header: Bytes := if n < 0x10 then [0x80 + n] else if n < 0x1_0000 then [0xDE] + Net(n, 2) else [0xDF] + Net(n, 4);
      var bytes := Encoded(Obj(o));
      && header <= bytes && MembersEncodable(o)
      && Listed(seq(n, i requires 0 <= i < n && Encodable(Str(o[i].key)) && Encodable(o[i].value) =>
                  MemberBytes(o[i])), bytes[|header|..])
  {
    hide Net;
    MembersListed(o);
    assert (MapHeader(|o|) + EncodedMembers(o))[|MapHeader(|o|)|..] == EncodedMembers(o);
  }

  function MemberBytes(m: Member): Bytes
    requires Encodable(Str(m.key)) && Encodable(m.value)
  {
    Encoded(Str(m.key)) + Encoded(m.value)
  }

  lemma {:induction false} MembersListed(o: seq<Member>)
    requires MembersEncodable(o)
    ensures
      Listed(seq(|o|, i requires 0 <= i < |o| && Encodable(Str(o[i].key)) && Encodable(o[i].value) => MemberBytes(o[i])), EncodedMembers(o))
    decreases |o|
  {
    hide WriteString;
    if o != [] {
      var rest := o[1..];
      MembersListed(rest);
      var pieces := seq(|o|, i requires 0 <= i < |o| && Encodable(Str(o[i].key)) && Encodable(o[i].value) => MemberBytes(o[i]));
      assert pieces[1..] ==
        seq(|rest|, i requires 0 <= i < |rest| && Encodable(Str(rest[i].key)) && Encodable(rest[i].value) => MemberBytes(rest[i]));
      assert EncodedMembers(o) == MemberBytes(o[0]) + EncodedMembers(rest);
      assert EncodedMembers(o)[|MemberBytes(o[0])|..] == EncodedMembers(rest);
    }
  }

  // ----- the unparser

  /** `unparser` over a buffer. */
  class Unparser {
    var base: Bytes

    constructor ()
      ensures base == []
    {
      base := [];
    }

    /** Appends the encoding of `j`. */
    method Write(j: Json)
      requires Encodable(j)
      modifies this
      ensures base == old(base) + Encoded(j)
      decreases j
    {
      hide WriteSigned, WriteUnsigned, WriteString, EncodedAll, EncodedMembers, ArrayHeader, MapHeader, KeysDiffer;
      match j
      case Null => base := base + [FNULL];
      case Bool(b) => base := base + [if b then FFALSE + 1 else FFALSE];
      case Int(i) => base := base + WriteSigned(i);
      case Unsigned(u) => base := base + WriteUnsigned(u);
      case Double(bits) => base := base + ([FFLOAT64] + bits);
      case Str(s) => base := base + WriteString(s);
      case Arr(a) =>
        base := base + ArrayHeader(|a|);
        WriteElements(a);
      case Obj(o) =>
        base := base + MapHeader(|o|);
        WriteMembers(o);
    }

    method WriteElements(a: seq<Json>)
      requires AllEncodable(a)
      modifies this
      ensures base == old(base) + EncodedAll(a)
      decreases a
    {
      hide Encoded;
      var n := 0;
      while n < |a|
        invariant n <= |a| && base + EncodedAll(a[n..]) == old(base) + EncodedAll(a)
      {
        Write(a[n]);
        assert a[n..][1..] == a[n + 1..];
        n := n + 1;
      }
    }

    method WriteMembers(o: seq<Member>)
      requires MembersEncodable(o)
      modifies this
      ensures base == old(base) + EncodedMembers(o)
      decreases o
    {
      hide Encoded, WriteString;
      var n := 0;
      while n < |o|
        invariant n <= |o| && base + EncodedMembers(o[n..]) == old(base) + EncodedMembers(o)
      {
        ghost var b, k, v, r := base, WriteString(o[n].key), Encoded(o[n].value), EncodedMembers(o[n + 1..]);
        assert o[n..][1..] == o[n + 1..];
        base := base + WriteString(o[n].key);
        Write(o[n].value);
        assert b + (k + v + r) == base + r;
        n := n + 1;
      }
    }
  }
}

/** The MessagePack format, written out from its specification: every format family, with the
    shortest header an encoder chooses and all the headers a decoder accepts. */
module MessagePack {
  import opened ByteStrings
  import opened Wrappers

  /** A decoded value. Map entries are kept flat: key, value, key, value... Extension data keeps
      its type byte in front. A number that is not negative but comes in a signed format is kept apart,
      as decoders see the format; encoders never write one. */
  datatype Value =
    | Nil
    | Bool(b: bool)
    | Int(n: int)
    | SignedNat(u: nat)
    | Float(bits: Bytes)
    | Str(utf8: Bytes)
    | Bin(data: Bytes)
    | Ext(typed: Bytes)
    | Arr(items: seq<Value>)
    | Map(flat: seq<Value>)

  /** What a format byte and its length or integer argument announce. */
  datatype Head =
    | HNil
    | HBool(b: bool)
    | HInt(n: int)
    | HSignedNat(u: nat)
    | HFloat(size: nat)
    | HStr(len: nat)
    | HBin(len: nat)
    | HExt(len: nat)
    | HArr(len: nat)
    | HMap(len: nat)

  // --- headers ---

  function EncodeInt(n: int): Bytes
    requires -0x8000_0000_0000_0000 <= n < 0x1_0000_0000_0000_0000
  {
    if n >= 0 then
      if n < 0x80 then [n]
      else if n < 0x100 then [0xcc] + BigEndian(n, 1)
      else if n < 0x1_0000 then [0xcd] + BigEndian(n, 2)
      else if n < 0x1_0000_0000 then [0xce] + BigEndian(n, 4)
      else [0xcf] + BigEndian(n, 8)
    else
      if n >= -0x20 then [n + 0x100]
      else if n >= -0x80 then [0xd0] + BigEndian(n + 0x100, 1)
      else if n >= -0x8000 then [0xd1] + BigEndian(n + 0x1_0000, 2)
      else if n >= -0x8000_0000 then [0xd2] + BigEndian(n + 0x1_0000_0000, 4)
      else [0xd3] + BigEndian(n + 0x1_0000_0000_0000_0000, 8)
  }

  /** A length: in the format byte up to `fixMax`, else in one (if the family has it), two or four bytes. */
  function EncodeLen(len: nat, fixBase: nat, fixMax: nat, tag8: Option<byte>, tag16: byte, tag32: byte): Bytes
    requires len < 0x1_0000_0000 && fixBase + fixMax <= 0x100
  {
    if len < fixMax then [fixBase + len]
    else if len < 0x100 && tag8.Some? then [tag8.value] + BigEndian(len, 1)
    else if len < 0x1_0000 then [tag16] + BigEndian(len, 2)
    else [tag32] + BigEndian(len, 4)
  }

  function EncodeExtLen(len: nat): Bytes
    requires len < 0x1_0000_0000
  {
    if len == 1 then [0xd4]
    else if len == 2 then [0xd5]
    else if len == 4 then [0xd6]
    else if len == 8 then [0xd7]
    else if len == 16 then [0xd8]
    else EncodeLen(len, 0, 0, Some(0xc7), 0xc8, 0xc9)
  }

  predicate ValidHead(h: Head) {
    match h
    case HNil => true
    case HBool(_) => true
    case HInt(n) => -0x8000_0000_0000_0000 <= n < 0x1_0000_0000_0000_0000
    case HSignedNat(_) => false
    case HFloat(size) => size == 4 || size == 8
    case HStr(len) => len < 0x1_0000_0000
    case HBin(len) => len < 0x1_0000_0000
    case HExt(len) => len < 0x1_0000_0000
    case HArr(len) => len < 0x1_0000_0000
    case HMap(len) => len < 0x1_0000_0000
  }

  function EncodeHead(h: Head): Bytes
    requires ValidHead(h)
  {
    match h
    case HNil => [0xc0]
    case HBool(b) => [if b then 0xc3 else 0xc2]
    case HInt(n) => EncodeInt(n)
    case HFloat(size) => [if size == 4 then 0xca else 0xcb]
    case HStr(len) => EncodeLen(len, 0xa0, 0x20, Some(0xd9), 0xda, 0xdb)
    case HBin(len) => EncodeLen(len, 0, 0, Some(0xc4), 0xc5, 0xc6)
    case HExt(len) => EncodeExtLen(len)
    case HArr(len) => EncodeLen(len, 0x90, 0x10, None, 0xdc, 0xdd)
    case HMap(len) => EncodeLen(len, 0x80, 0x10, None, 0xde, 0xdf)
  }

  function Sized(b: Bytes, k: nat, make: nat -> Head): Option<(Head, Bytes)> {
    match TakeUint(b, k)
    case None => None
    case Some((n, rest)) => Some((make(n), rest))
  }

  /** An argument of a signed format. */
  function Signed(n: nat, k: nat): Head {
    if n < Radix(k) / 2 then HSignedNat(n) else HInt(n - Radix(k))
  }

  function NegativeFixInt(tag: int): int {
    tag - 0x100
  }

  function ParseHead(b: Bytes): Option<(Head, Bytes)> {
    if b == [] then None
    else
      var tag, rest := b[0], b[1..];
      if tag < 0x80 then Some((HInt(tag), rest))
      else if tag < 0x90 then Some((HMap(tag - 0x80), rest))
      else if tag < 0xa0 then Some((HArr(tag - 0x90), rest))
      else if tag < 0xc0 then Some((HStr(tag - 0xa0), rest))
      else if tag >= 0xe0 then Some((HInt(NegativeFixInt(tag)), rest))
      else if tag < 0xd0 then ParseLowTag(tag, rest)
      else ParseHighTag(tag, rest)
  }

  function ParseLowTag(tag: byte, rest: Bytes): Option<(Head, Bytes)> {
    if tag == 0xc0 then Some((HNil, rest))
    else if tag == 0xc2 then Some((HBool(false), rest))
    else if tag == 0xc3 then Some((HBool(true), rest))
    else if tag == 0xc4 then Sized(rest, 1, (n: nat) => HBin(n))
    else if tag == 0xc5 then Sized(rest, 2, (n: nat) => HBin(n))
    else if tag == 0xc6 then Sized(rest, 4, (n: nat) => HBin(n))
    else if tag == 0xc7 then Sized(rest, 1, (n: nat) => HExt(n))
    else if tag == 0xc8 then Sized(rest, 2, (n: nat) => HExt(n))
    else if tag == 0xc9 then Sized(rest, 4, (n: nat) => HExt(n))
    else if tag == 0xca then Some((HFloat(4), rest))
    else if tag == 0xcb then Some((HFloat(8), rest))
    else if tag == 0xcc then Sized(rest, 1, (n: nat) => HInt(n))
    else if tag == 0xcd then Sized(rest, 2, (n: nat) => HInt(n))
    else if tag == 0xce then Sized(rest, 4, (n: nat) => HInt(n))
    else if tag == 0xcf then Sized(rest, 8, (n: nat) => HInt(n))
    else None
  }

  function ParseHighTag(tag: byte, rest: Bytes): Option<(Head, Bytes)> {
    if tag == 0xd0 then Sized(rest, 1, (n: nat) => Signed(n, 1))
    else if tag == 0xd1 then Sized(rest, 2, (n: nat) => Signed(n, 2))
    else if tag == 0xd2 then Sized(rest, 4, (n: nat) => Signed(n, 4))
    else if tag == 0xd3 then Sized(rest, 8, (n: nat) => Signed(n, 8))
    else if tag == 0xd4 then Some((HExt(1), rest))
    else if tag == 0xd5 then Some((HExt(2), rest))
    else if tag == 0xd6 then Some((HExt(4), rest))
    else if tag == 0xd7 then Some((HExt(8), rest))
    else if tag == 0xd8 then Some((HExt(16), rest))
    else if tag == 0xd9 then Sized(rest, 1, (n: nat) => HStr(n))
    else if tag == 0xda then Sized(rest, 2, (n: nat) => HStr(n))
    else if tag == 0xdb then Sized(rest, 4, (n: nat) => HStr(n))
    else if tag == 0xdc then Sized(rest, 2, (n: nat) => HArr(n))
    else if tag == 0xdd then Sized(rest, 4, (n: nat) => HArr(n))
    else if tag == 0xde then Sized(rest, 2, (n: nat) => HMap(n))
    else if tag == 0xdf then Sized(rest, 4, (n: nat) => HMap(n))
    else None
  }

  /** One tagged big-endian argument in front of arbitrary bytes. */
  lemma TaggedArgument(tag: byte, n: nat, k: nat, rest: Bytes)
    requires n < Radix(k)
    ensures var b := [tag] + BigEndian(n, k) + rest;
      b[0] == tag && TakeUint(b[1..], k) == Some((n, rest))
  {
    TakeUintOfBigEndian(n, k, rest);
    assert ([tag] + BigEndian(n, k) + rest)[1..] == BigEndian(n, k) + rest;
  }

  lemma IntHeadRoundTrip(n: int, rest: Bytes)
    requires -0x8000_0000_0000_0000 <= n < 0x1_0000_0000_0000_0000
    ensures ParseHead(EncodeInt(n) + rest) == Some((HInt(n), rest))
  {
    RadixValues();
    if 0 <= n {
      if n < 0x80 {
        assert ([n] + rest)[1..] == rest;
      } else if n < 0x100 {
        TaggedArgument(0xcc, n, 1, rest);
      } else if n < 0x1_0000 {
        TaggedArgument(0xcd, n, 2, rest);
      } else if n < 0x1_0000_0000 {
        TaggedArgument(0xce, n, 4, rest);
      } else {
        TaggedArgument(0xcf, n, 8, rest);
      }
    } else {
      NegativeHeadRoundTrip(n, rest);
    }
  }

  lemma NegativeHeadRoundTrip(n: int, rest: Bytes)
    requires -0x8000_0000_0000_0000 <= n < 0
    ensures ParseHead(EncodeInt(n) + rest) == Some((HInt(n), rest))
  {
    RadixValues();
    if n >= -0x20 {
      assert ([n + 0x100] + rest)[1..] == rest;
    } else if n >= -0x80 {
      TaggedArgument(0xd0, n + 0x100, 1, rest);
    } else if n >= -0x8000 {
      TaggedArgument(0xd1, n + 0x1_0000, 2, rest);
    } else if n >= -0x8000_0000 {
      TaggedArgument(0xd2, n + 0x1_0000_0000, 4, rest);
    } else {
      TaggedArgument(0xd3, n + 0x1_0000_0000_0000_0000, 8, rest);
    }
  }

  /** The bytes of a length header, seen from the decoder's side. */
  lemma LenHeader(len: nat, fixBase: nat, fixMax: nat, tag8: Option<byte>, tag16: byte, tag32: byte, rest: Bytes)
    requires len < 0x1_0000_0000 && fixBase + fixMax <= 0x100
    ensures var b := EncodeLen(len, fixBase, fixMax, tag8, tag16, tag32) + rest;
      && b != []
      && (len < fixMax ==> b[0] == fixBase + len && b[1..] == rest)
      && (fixMax <= len < 0x100 && tag8.Some? ==> b[0] == tag8.value && TakeUint(b[1..], 1) == Some((len, rest)))
      && (fixMax <= len < 0x1_0000 && !(len < 0x100 && tag8.Some?) ==>
          b[0] == tag16 && TakeUint(b[1..], 2) == Some((len, rest)))
      && (fixMax <= len && 0x1_0000 <= len ==> b[0] == tag32 && TakeUint(b[1..], 4) == Some((len, rest)))
  {
    RadixValues();
    if len < fixMax {
      assert ([fixBase + len] + rest)[1..] == rest;
    } else if len < 0x100 && tag8.Some? {
      TaggedArgument(tag8.value, len, 1, rest);
    } else if len < 0x1_0000 {
      TaggedArgument(tag16, len, 2, rest);
    } else {
      TaggedArgument(tag32, len, 4, rest);
    }
  }

  lemma HeadRoundTrip(h: Head, rest: Bytes)
    requires ValidHead(h)
    ensures ParseHead(EncodeHead(h) + rest) == Some((h, rest))
  {
    match h
    case HNil => assert ([0xc0] + rest)[1..] == rest;
    case HBool(b) => assert (EncodeHead(h) + rest)[1..] == rest;
    case HInt(n) => IntHeadRoundTrip(n, rest);
    case HFloat(size) => assert (EncodeHead(h) + rest)[1..] == rest;
    case HStr(len) => StrHeadRoundTrip(len, rest);
    case HBin(len) => BinHeadRoundTrip(len, rest);
    case HExt(len) => ExtHeadRoundTrip(len, rest);
    case HArr(len) => ArrHeadRoundTrip(len, rest);
    case HMap(len) => MapHeadRoundTrip(len, rest);
  }

  lemma StrHeadRoundTrip(len: nat, rest: Bytes)
    requires len < 0x1_0000_0000
    ensures ParseHead(EncodeHead(HStr(len)) + rest) == Some((HStr(len), rest))
  {
    LenHeader(len, 0xa0, 0x20, Some(0xd9), 0xda, 0xdb, rest);
  }

  lemma BinHeadRoundTrip(len: nat, rest: Bytes)
    requires len < 0x1_0000_0000
    ensures ParseHead(EncodeHead(HBin(len)) + rest) == Some((HBin(len), rest))
  {
    LenHeader(len, 0, 0, Some(0xc4), 0xc5, 0xc6, rest);
  }

  lemma ArrHeadRoundTrip(len: nat, rest: Bytes)
    requires len < 0x1_0000_0000
    ensures ParseHead(EncodeHead(HArr(len)) + rest) == Some((HArr(len), rest))
  {
    LenHeader(len, 0x90, 0x10, None, 0xdc, 0xdd, rest);
  }

  lemma MapHeadRoundTrip(len: nat, rest: Bytes)
    requires len < 0x1_0000_0000
    ensures ParseHead(EncodeHead(HMap(len)) + rest) == Some((HMap(len), rest))
  {
    LenHeader(len, 0x80, 0x10, None, 0xde, 0xdf, rest);
  }

  lemma ExtHeadRoundTrip(len: nat, rest: Bytes)
    requires len < 0x1_0000_0000
    ensures ParseHead(EncodeExtLen(len) + rest) == Some((HExt(len), rest))
  {
    if len == 1 || len == 2 || len == 4 || len == 8 || len == 16 {
      assert (EncodeExtLen(len) + rest)[1..] == rest;
    } else {
      LenHeader(len, 0, 0, Some(0xc7), 0xc8, 0xc9, rest);
    }
  }

  // --- values ---

  /** Values the format can carry: lengths below 2^32, 64-bit integers, whole map entries. */
  predicate Encodable(v: Value)
    decreases v, 1
  {
    match v
    case Nil => true
    case Bool(_) => true
    case Int(n) => -0x8000_0000_0000_0000 <= n < 0x1_0000_0000_0000_0000
    case SignedNat(_) => false
    case Float(bits) => |bits| == 4 || |bits| == 8
    case Str(s) => |s| < 0x1_0000_0000
    case Bin(d) => |d| < 0x1_0000_0000
    case Ext(d) => 1 <= |d| <= 0x1_0000_0000
    case Arr(items) => |items| < 0x1_0000_0000 && AllEncodable(items)
    case Map(flat) => |flat| % 2 == 0 && |flat| / 2 < 0x1_0000_0000 && AllEncodable(flat)
  }

  predicate AllEncodable(vs: seq<Value>)
    decreases vs, 0
  {
    vs == [] || (Encodable(vs[0]) && AllEncodable(vs[1..]))
  }

  function Encode(v: Value): Bytes
    requires Encodable(v)
    decreases v, 1
  {
    match v
    case Nil => EncodeHead(HNil)
    case Bool(b) => EncodeHead(HBool(b))
    case Int(n) => EncodeHead(HInt(n))
    case Float(bits) => EncodeHead(HFloat(|bits|)) + bits
    case Str(s) => EncodeHead(HStr(|s|)) + s
    case Bin(d) => EncodeHead(HBin(|d|)) + d
    case Ext(d) => EncodeHead(HExt(|d| - 1)) + d
    case Arr(items) => EncodeHead(HArr(|items|)) + EncodeAll(items)
    case Map(flat) => EncodeHead(HMap(|flat| / 2)) + EncodeAll(flat)
  }

  function EncodeAll(vs: seq<Value>): Bytes
    requires AllEncodable(vs)
    decreases vs, 0
  {
    if vs == [] then [] else Encode(vs[0]) + EncodeAll(vs[1..])
  }

  lemma HeadConsumes(b: Bytes)
    ensures ParseHead(b).Some? ==> |ParseHead(b).value.1| < |b|
  {
  }

  function Payload(b: Bytes, k: nat, make: Bytes -> Value): Option<(Value, Bytes)> {
    match Take(b, k)
    case None => None
    case Some((data, rest)) => Some((make(data), rest))
  }

  function Parse(b: Bytes): (r: Option<(Value, Bytes)>)
    ensures r.Some? ==> |r.value.1| < |b|
    decreases |b|, 0, 0
  {
    HeadConsumes(b);
    match ParseHead(b)
    case None => None
    case Some((h, rest)) => BodyOf(h, rest)
  }

  /** What follows a header. */
  function BodyOf(h: Head, rest: Bytes): (r: Option<(Value, Bytes)>)
    ensures r.Some? ==> |r.value.1| <= |rest|
    decreases |rest|, 2, 0
  {
    match h
    case HNil => Some((Nil, rest))
    case HBool(v) => Some((Bool(v), rest))
    case HInt(n) => Some((Int(n), rest))
    case HSignedNat(n) => Some((SignedNat(n), rest))
    case HFloat(size) => Payload(rest, size, d => Float(d))
    case HStr(len) => Payload(rest, len, d => Str(d))
    case HBin(len) => Payload(rest, len, d => Bin(d))
    case HExt(len) => Payload(rest, len + 1, d => Ext(d))
    case HArr(len) =>
      (match ParseMany(rest, len)
       case None => None
       case Some((vs, after)) => Some((Arr(vs), after)))
    case HMap(len) =>
      (match ParseMany(rest, 2 * len)
       case None => None
       case Some((vs, after)) => Some((Map(vs), after)))
  }

  function ParseMany(b: Bytes, n: nat): (r: Option<(seq<Value>, Bytes)>)
    ensures r.Some? ==> |r.value.1| <= |b|
    decreases |b|, 1, n
  {
    if n == 0 then Some(([], b))
    else
      match Parse(b)
      case None => None
      case Some((v, rest)) =>
        match ParseMany(rest, n - 1)
        case None => None
        case Some((vs, after)) => Some(([v] + vs, after))
  }

  /** Every value, followed by anything, parses back to itself and leaves what followed. */
  lemma {:induction false} ParseEncode(v: Value, rest: Bytes)
    requires Encodable(v)
    ensures Parse(Encode(v) + rest) == Some((v, rest))
    decreases v, 1
  {
    match v
    case Nil => HeadRoundTrip(HNil, rest);
    case Bool(b) => HeadRoundTrip(HBool(b), rest);
    case Int(n) => HeadRoundTrip(HInt(n), rest);
    case Float(d) => RawRoundTrip(HFloat(|d|), d, rest);
    case Str(d) => RawRoundTrip(HStr(|d|), d, rest);
    case Bin(d) => RawRoundTrip(HBin(|d|), d, rest);
    case Ext(d) => RawRoundTrip(HExt(|d| - 1), d, rest);
    case Arr(items) =>
      ParseManyEncodeAll(items, rest);
      ArrAfterHead(items, rest);
    case Map(flat) =>
      ParseManyEncodeAll(flat, rest);
      MapAfterHead(flat, rest);
  }

  lemma ArrAfterHead(items: seq<Value>, rest: Bytes)
    requires Encodable(Arr(items))
    requires ParseMany(EncodeAll(items) + rest, |items|) == Some((items, rest))
    ensures Parse(Encode(Arr(items)) + rest) == Some((Arr(items), rest))
  {
    HeadBeforePayload(HArr(|items|), EncodeAll(items), rest);
  }

  lemma MapAfterHead(flat: seq<Value>, rest: Bytes)
    requires Encodable(Map(flat))
    requires ParseMany(EncodeAll(flat) + rest, |flat|) == Some((flat, rest))
    ensures Parse(Encode(Map(flat)) + rest) == Some((Map(flat), rest))
  {
    HeadBeforePayload(HMap(|flat| / 2), EncodeAll(flat), rest);
    assert 2 * (|flat| / 2) == |flat|;
  }

  lemma HeadBeforePayload(h: Head, d: Bytes, rest: Bytes)
    requires ValidHead(h)
    ensures ParseHead(EncodeHead(h) + d + rest) == Some((h, d + rest))
  {
    assert EncodeHead(h) + d + rest == EncodeHead(h) + (d + rest);
    HeadRoundTrip(h, d + rest);
  }

  lemma RawRoundTrip(h: Head, d: Bytes, rest: Bytes)
    requires ValidHead(h)
    ensures ParseHead(EncodeHead(h) + d + rest) == Some((h, d + rest))
    ensures Take(d + rest, |d|) == Some((d, rest))
  {
    HeadBeforePayload(h, d, rest);
    assert (d + rest)[..|d|] == d && (d + rest)[|d|..] == rest;
  }

  lemma {:induction false} ParseManyEncodeAll(vs: seq<Value>, rest: Bytes)
    requires AllEncodable(vs)
    ensures ParseMany(EncodeAll(vs) + rest, |vs|) == Some((vs, rest))
    decreases vs, 0
  {
    if vs != [] {
      var tail := EncodeAll(vs[1..]) + rest;
      assert EncodeAll(vs) + rest == Encode(vs[0]) + tail;
      ParseEncode(vs[0], tail);
      ParseManyEncodeAll(vs[1..], rest);
      assert vs == [vs[0]] + vs[1..];
    } else {
      assert [] + rest == rest;
    }
  }

  // --- the headers, format by format, and which the encoder chooses ---

  /** 0 to 3 for arguments of one, two, four and eight bytes: format bytes follow each other so. */
  function Width(k: nat): nat {
    if k == 1 then 0 else if k == 2 then 1 else if k == 4 then 2 else 3
  }

  lemma UintHead(n: nat, k: nat, rest: Bytes)
    requires k in {1, 2, 4, 8} && n < Radix(k)
    ensures ParseHead([0xcc + Width(k)] + BigEndian(n, k) + rest) == Some((HInt(n), rest))
  {
    TaggedArgument(0xcc + Width(k), n, k, rest);
  }

  /** Two's complement. */
  lemma SignedHead(n: nat, k: nat, rest: Bytes)
    requires k in {1, 2, 4, 8} && n < Radix(k)
    ensures ParseHead([0xd0 + Width(k)] + BigEndian(n, k) + rest) ==
      Some((if n < Radix(k) / 2 then HSignedNat(n) else HInt(n - Radix(k)), rest))
  {
    var b := [0xd0 + Width(k)] + BigEndian(n, k) + rest;
    TaggedArgument(0xd0 + Width(k), n, k, rest);
    assert ParseHead(b) == ParseHighTag(b[0], b[1..]);
    assert ParseHighTag(b[0], b[1..]) == Sized(b[1..], k, (m: nat) => Signed(m, k));
  }

  lemma StrHead(n: nat, k: nat, rest: Bytes)
    requires k in {1, 2, 4} && n < Radix(k)
    ensures ParseHead([0xd9 + Width(k)] + BigEndian(n, k) + rest) == Some((HStr(n), rest))
  {
    TaggedArgument(0xd9 + Width(k), n, k, rest);
  }

  lemma BinHead(n: nat, k: nat, rest: Bytes)
    requires k in {1, 2, 4} && n < Radix(k)
    ensures ParseHead([0xc4 + Width(k)] + BigEndian(n, k) + rest) == Some((HBin(n), rest))
  {
    TaggedArgument(0xc4 + Width(k), n, k, rest);
  }

  lemma ExtHead(n: nat, k: nat, rest: Bytes)
    requires k in {1, 2, 4} && n < Radix(k)
    ensures ParseHead([0xc7 + Width(k)] + BigEndian(n, k) + rest) == Some((HExt(n), rest))
  {
    TaggedArgument(0xc7 + Width(k), n, k, rest);
  }

  lemma ArrHead(n: nat, k: nat, rest: Bytes)
    requires k in {2, 4} && n < Radix(k)
    ensures ParseHead([0xdb + Width(k)] + BigEndian(n, k) + rest) == Some((HArr(n), rest))
  {
    TaggedArgument(0xdb + Width(k), n, k, rest);
  }

  lemma MapHead(n: nat, k: nat, rest: Bytes)
    requires k in {2, 4} && n < Radix(k)
    ensures ParseHead([0xdd + Width(k)] + BigEndian(n, k) + rest) == Some((HMap(n), rest))
  {
    TaggedArgument(0xdd + Width(k), n, k, rest);
  }

  /** A header with a big-endian argument of one to eight bytes, by its format byte. */
  lemma ArgumentHeads(n: nat, k: nat, rest: Bytes)
    requires k in {1, 2, 4, 8} && n < Radix(k)
    ensures ParseHead([0xcc + Width(k)] + BigEndian(n, k) + rest) == Some((HInt(n), rest))
    ensures ParseHead([0xd0 + Width(k)] + BigEndian(n, k) + rest) ==
      Some((if n < Radix(k) / 2 then HSignedNat(n) else HInt(n - Radix(k)), rest))
    ensures k <= 4 ==> ParseHead([0xd9 + Width(k)] + BigEndian(n, k) + rest) == Some((HStr(n), rest))
    ensures k <= 4 ==> ParseHead([0xc4 + Width(k)] + BigEndian(n, k) + rest) == Some((HBin(n), rest))
    ensures k <= 4 ==> ParseHead([0xc7 + Width(k)] + BigEndian(n, k) + rest) == Some((HExt(n), rest))
    ensures k == 2 || k == 4 ==> ParseHead([0xdb + Width(k)] + BigEndian(n, k) + rest) == Some((HArr(n), rest))
    ensures k == 2 || k == 4 ==> ParseHead([0xdd + Width(k)] + BigEndian(n, k) + rest) == Some((HMap(n), rest))
  {
    UintHead(n, k, rest);
    SignedHead(n, k, rest);
    if k <= 4 {
      StrHead(n, k, rest);
      BinHead(n, k, rest);
      ExtHead(n, k, rest);
    }
    if k == 2 || k == 4 {
      ArrHead(n, k, rest);
      MapHead(n, k, rest);
    }
  }

  /** The headers of one byte; 0xc1 is none. */
  lemma SingleByteHeads(tag: byte, rest: Bytes)
    ensures ParseHead([]) == None
    ensures var head := ParseHead([tag] + rest);
      && (tag <= 0x7f ==> head == Some((HInt(tag), rest)))
      && (0x80 <= tag <= 0x8f ==> head == Some((HMap(tag - 0x80), rest)))
      && (0x90 <= tag <= 0x9f ==> head == Some((HArr(tag - 0x90), rest)))
      && (0xa0 <= tag <= 0xbf ==> head == Some((HStr(tag - 0xa0), rest)))
      && (tag == 0xc0 ==> head == Some((HNil, rest)))
      && (tag == 0xc1 ==> head == None)
      && (tag == 0xc2 ==> head == Some((HBool(false), rest)))
      && (tag == 0xc3 ==> head == Some((HBool(true), rest)))
      && (tag == 0xca ==> head == Some((HFloat(4), rest)))
      && (tag == 0xcb ==> head == Some((HFloat(8), rest)))
      && (0xd4 <= tag <= 0xd8 ==>
            head == Some((HExt(if tag == 0xd4 then 1 else if tag == 0xd5 then 2 else if tag == 0xd6 then 4
                               else if tag == 0xd7 then 8 else 16), rest)))
      && (0xe0 <= tag ==> head == Some((HInt((tag as int) - 0x100), rest)))
  {
    assert ([tag] + rest)[1..] == rest;
  }

  /** How many argument bytes follow a format byte. */
  function ArgumentSize(tag: byte): nat {
    if tag in {0xc4, 0xc7, 0xcc, 0xd0, 0xd9} then 1
    else if tag in {0xc5, 0xc8, 0xcd, 0xd1, 0xda, 0xdc, 0xde} then 2
    else if tag in {0xc6, 0xc9, 0xce, 0xd2, 0xdb, 0xdd, 0xdf} then 4
    else if tag in {0xcf, 0xd3} then 8
    else 0
  }

  lemma HeadShape(b: Bytes)
    requires b != []
    ensures |b| < 1 + ArgumentSize(b[0]) ==> ParseHead(b) == None
    ensures ParseHead(b).Some? ==> ParseHead(b).value.1 == b[1 + ArgumentSize(b[0])..]
  {
    var tag, rest := b[0], b[1..];
    var size := ArgumentSize(tag);
    if |rest| >= size {
      assert rest[size..] == b[1 + size..];
    }
  }

  lemma HeadDependsOnFront(b: Bytes, c: Bytes)
    requires b != [] && c != [] && b[0] == c[0]
    requires |b| >= 1 + ArgumentSize(b[0]) && |c| >= 1 + ArgumentSize(b[0])
    requires b[1..][..ArgumentSize(b[0])] == c[1..][..ArgumentSize(b[0])]
    ensures ParseHead(b).Some? <==> ParseHead(c).Some?
    ensures ParseHead(b).Some? ==> ParseHead(b).value.0 == ParseHead(c).value.0
  {
  }

  /** What a parse took off the front. */
  function Taken(b: Bytes, rest: Bytes): Bytes
    requires |rest| <= |b|
  {
    b[..|b| - |rest|]
  }

  lemma HeadExtends(b: Bytes, other: Bytes)
    requires ParseHead(b).Some?
    ensures var (h, rest) := ParseHead(b).value;
      |rest| < |b| && b == Taken(b, rest) + rest && ParseHead(Taken(b, rest) + other) == Some((h, other))
  {
    HeadShape(b);
    var n := 1 + ArgumentSize(b[0]);
    var c := b[..n] + other;
    assert c[1..][..n - 1] == b[1..][..n - 1];
    HeadDependsOnFront(b, c);
    HeadShape(c);
    assert c[n..] == other;
  }

  lemma HeadCut(b: Bytes, m: nat)
    requires ParseHead(b).Some? && m < |b| - |ParseHead(b).value.1|
    ensures ParseHead(b[..m]) == None
  {
    HeadShape(b);
    if m > 0 {
      HeadShape(b[..m]);
    }
  }

  lemma HeadThenBody(front: Bytes, h: Head, tail: Bytes)
    requires ParseHead(front + tail) == Some((h, tail))
    ensures Parse(front + tail) == BodyOf(h, tail)
  {
  }

  lemma ShortHead(b: Bytes)
    requires ParseHead(b) == None
    ensures Parse(b) == None
  {
  }

  lemma FirstThenMore(front: Bytes, v: Value, tail: Bytes, k: nat)
    requires k > 0 && Parse(front + tail) == Some((v, tail))
    ensures ParseMany(front + tail, k) ==
      match ParseMany(tail, k - 1) case None => None case Some((vs, after)) => Some(([v] + vs, after))
  {
  }

  lemma NoFirst(b: Bytes, k: nat)
    requires k > 0 && Parse(b) == None
    ensures ParseMany(b, k) == None
  {
  }

  lemma Rejoin(a: Bytes, b: Bytes, rest: Bytes, other: Bytes)
    requires |rest| <= |b| && b == Taken(b, rest) + rest
    ensures |rest| <= |a + b| && Taken(a + b, rest) == a + Taken(b, rest)
    ensures Taken(a + b, rest) + other == a + (Taken(b, rest) + other)
    ensures a + b == Taken(a + b, rest) + rest
  {
  }

  /** A value ends where it ends, whatever follows. */
  lemma {:induction false} ParseExtends(b: Bytes, other: Bytes)
    requires Parse(b).Some?
    ensures var (v, rest) := Parse(b).value;
      b == Taken(b, rest) + rest && Parse(Taken(b, rest) + other) == Some((v, other))
    decreases |b|, 0, 0
  {
    if ParseHead(b) == None {
      ShortHead(b);
    }
    var (h, body) := ParseHead(b).value;
    HeadExtends(b, body);
    var front := Taken(b, body);
    HeadThenBody(front, h, body);
    BodyExtends(h, body, other);
    var (v, rest) := BodyOf(h, body).value;
    Rejoin(front, body, rest, other);
    HeadExtends(b, Taken(body, rest) + other);
    HeadThenBody(front, h, Taken(body, rest) + other);
  }

  lemma PayloadExtends(b: Bytes, k: nat, make: Bytes -> Value, other: Bytes)
    requires Payload(b, k, make).Some?
    ensures var (v, rest) := Payload(b, k, make).value;
      |rest| <= |b| && b == Taken(b, rest) + rest && Payload(Taken(b, rest) + other, k, make) == Some((v, other))
  {
    assert (b[..k] + other)[..k] == b[..k] && (b[..k] + other)[k..] == other;
  }

  lemma {:induction false} BodyExtends(h: Head, b: Bytes, other: Bytes)
    requires BodyOf(h, b).Some?
    ensures var (v, rest) := BodyOf(h, b).value;
      b == Taken(b, rest) + rest && BodyOf(h, Taken(b, rest) + other) == Some((v, other))
    decreases |b|, 2, 0
  {
    match h
    case HFloat(size) => PayloadExtends(b, size, d => Float(d), other);
    case HStr(len) => PayloadExtends(b, len, d => Str(d), other);
    case HBin(len) => PayloadExtends(b, len, d => Bin(d), other);
    case HExt(len) => PayloadExtends(b, len + 1, d => Ext(d), other);
    case HArr(len) => ManyExtends(b, len, other);
    case HMap(len) => ManyExtends(b, 2 * len, other);
    case _ => assert [] + other == other && [] + b == b;
  }

  lemma {:induction false} ManyExtends(b: Bytes, k: nat, other: Bytes)
    requires ParseMany(b, k).Some?
    ensures var (vs, rest) := ParseMany(b, k).value;
      b == Taken(b, rest) + rest && ParseMany(Taken(b, rest) + other, k) == Some((vs, other))
    decreases |b|, 1, k
  {
    if k == 0 {
      assert [] + other == other && [] + b == b;
    } else {
      if Parse(b) == None {
        NoFirst(b, k);
      }
      var (v, mid) := Parse(b).value;
      ParseExtends(b, mid);
      var front := Taken(b, mid);
      FirstThenMore(front, v, mid, k);
      ManyExtends(mid, k - 1, other);
      var (vs, rest) := ParseMany(mid, k - 1).value;
      Rejoin(front, mid, rest, other);
      ParseExtends(b, Taken(mid, rest) + other);
      FirstThenMore(front, v, Taken(mid, rest) + other, k);
    }
  }

  /** Cut short anywhere it is none. */
  lemma {:induction false} ParseCut(b: Bytes, m: nat)
    requires Parse(b).Some? && m < |b| - |Parse(b).value.1|
    ensures Parse(b[..m]) == None
    decreases |b|, 0, 0
  {
    if ParseHead(b) == None {
      ShortHead(b);
    }
    var (h, body) := ParseHead(b).value;
    HeadExtends(b, body);
    var front := Taken(b, body);
    HeadThenBody(front, h, body);
    if m < |front| {
      HeadCut(b, m);
      ShortHead(b[..m]);
    } else {
      var short := body[..m - |front|];
      assert b[..m] == front + short;
      BodyCut(h, body, m - |front|);
      HeadExtends(b, short);
      HeadThenBody(front, h, short);
    }
  }

  lemma {:induction false} BodyCut(h: Head, b: Bytes, m: nat)
    requires BodyOf(h, b).Some? && m < |b| - |BodyOf(h, b).value.1|
    ensures BodyOf(h, b[..m]) == None
    decreases |b|, 2, 0
  {
    match h
    case HArr(len) => ManyCut(b, len, m);
    case HMap(len) => ManyCut(b, 2 * len, m);
    case _ =>
  }

  lemma {:induction false} ManyCut(b: Bytes, k: nat, m: nat)
    requires ParseMany(b, k).Some? && m < |b| - |ParseMany(b, k).value.1|
    ensures ParseMany(b[..m], k) == None
    decreases |b|, 1, k
  {
    if Parse(b) == None {
      NoFirst(b, k);
    }
    var (v, mid) := Parse(b).value;
    ParseExtends(b, mid);
    var front := Taken(b, mid);
    FirstThenMore(front, v, mid, k);
    if m < |front| {
      ParseCut(b, m);
      NoFirst(b[..m], k);
    } else {
      var short := mid[..m - |front|];
      assert b[..m] == front + short;
      ManyCut(mid, k - 1, m - |front|);
      ParseExtends(b, short);
      FirstThenMore(front, v, short, k);
    }
  }

  /** Whatever bytes parse: what was taken is parsed alike in front of anything else, and no part of it is a
      value by itself. */
  lemma ParseFraming(b: Bytes, other: Bytes)
    requires Parse(b).Some?
    ensures var (v, rest) := Parse(b).value;
      && b == Taken(b, rest) + rest && Parse(Taken(b, rest) + other) == Some((v, other))
      && forall m :: 0 <= m < |b| - |rest| ==> Parse(b[..m]) == None
  {
    ParseExtends(b, other);
    forall m | 0 <= m < |b| - |Parse(b).value.1|
      ensures Parse(b[..m]) == None
    {
      ParseCut(b, m);
    }
  }

  // --- the shortest header ---

  lemma ArgumentBound(b: Bytes, k: nat)
    requires k <= |b|
    ensures FromBigEndian(b[..k]) < Radix(k)
  {
    FromBigEndianRoundTrip(b[..k]);
  }

  /** What fits into a header with k argument bytes. */
  predicate Fits(h: Head, k: nat) {
    match h
    case HInt(n) => if k == 0 then -0x20 <= n < 0x80 else k <= 8 && 0 <= 2 * n + Radix(k) && n < Radix(k)
    case HStr(len) => if k == 0 then len < 0x20 else k in {1, 2, 4} && len < Radix(k)
    case HBin(len) => k in {1, 2, 4} && len < Radix(k)
    case HExt(len) => if k == 0 then len in {1, 2, 4, 8, 16} else k in {1, 2, 4} && len < Radix(k)
    case HArr(len) => if k == 0 then len < 0x10 else k in {2, 4} && len < Radix(k)
    case HMap(len) => if k == 0 then len < 0x10 else k in {2, 4} && len < Radix(k)
    case _ => true
  }

  lemma ParsedFits(b: Bytes)
    requires ParseHead(b).Some?
    ensures ArgumentSize(b[0]) in {0, 1, 2, 4, 8} && Fits(ParseHead(b).value.0, ArgumentSize(b[0]))
  {
    HeadShape(b);
    RadixValues();
    ArgumentBound(b[1..], ArgumentSize(b[0]));
  }

  lemma EncodedLength(h: Head, k: nat)
    requires ValidHead(h) && Fits(h, k) && k in {0, 1, 2, 4, 8}
    ensures |EncodeHead(h)| <= 1 + k
  {
    RadixValues();
  }

  /** No spelling of a header is shorter than the encoder's. */
  lemma ShortestHead(b: Bytes)
    requires ParseHead(b).Some? && ValidHead(ParseHead(b).value.0)
    ensures |EncodeHead(ParseHead(b).value.0)| <= |b| - |ParseHead(b).value.1|
  {
    HeadShape(b);
    ParsedFits(b);
    EncodedLength(ParseHead(b).value.0, ArgumentSize(b[0]));
  }
}

/** The VPN wire format: announce payloads and in-link control frames carried as MessagePack. */
module VpnCodec {
  import opened ByteStrings
  import opened Cidr
  import opened MessagePack
  import opened Wrappers

  const ANNOUNCE_MAGIC: Bytes := [0x6b, 0x76, 0x70, 0x6e]
  const ANNOUNCE_VERSION: byte := 2
  const CTRL_TAG: byte := 0xFB

  const ROUTES: Bytes := [0x72, 0x6f, 0x75, 0x74, 0x65, 0x73]
  const TAG: Bytes := [0x74]
  const CONTENT: Bytes := [0x76]
  const HELLO: Bytes := [0x68]
  const REFRESH: Bytes := [0x72]
  const PING: Bytes := [0x70]

  datatype CodecError = Short | BadMagic | Version(v: byte) | Decode | Prefix(p: byte)

  /** A route on the wire: a big-endian address and a prefix length, not yet checked. */
  datatype Subnet = Subnet(ip: Ip, prefix: byte)

  datatype Ctrl = Hello(routes: seq<Subnet>) | Routes(routes: seq<Subnet>) | Ping

  /** Route lists the array format family can count. */
  type RouteList = rs: seq<Ipv4Cidr> | |rs| < 0x1_0000_0000

  // --- Subnet ---

  function FromCidr(c: Ipv4Cidr): Subnet {
    Subnet(c.addr, c.len)
  }

  function ToCidr(s: Subnet): Result<Ipv4Cidr, CodecError> {
    if s.prefix > 32 then Err(Prefix(s.prefix))
    else if !Canonical(s.ip, s.prefix) then Err(Prefix(s.prefix))
    else Ok(RawCidr(s.ip, s.prefix))
  }

  function FromCidrs(rs: seq<Ipv4Cidr>): (ss: seq<Subnet>)
    ensures |ss| == |rs| && forall i :: 0 <= i < |rs| ==> ss[i] == FromCidr(rs[i])
  {
    seq(|rs|, i requires 0 <= i < |rs| => FromCidr(rs[i]))
  }

  function ToCidrs(ss: seq<Subnet>): Result<seq<Ipv4Cidr>, CodecError> {
    if ss == [] then Ok([])
    else
      match ToCidr(ss[0])
      case Err(e) => Err(e)
      case Ok(c) =>
        match ToCidrs(ss[1..])
        case Err(e) => Err(e)
        case Ok(cs) => Ok([c] + cs)
  }

  // --- the serialized shapes ---

  function SubnetValue(s: Subnet): Value {
    Arr([Int(s.ip), Int(s.prefix)])
  }

  function SubnetValues(ss: seq<Subnet>): seq<Value> {
    if ss == [] then [] else [SubnetValue(ss[0])] + SubnetValues(ss[1..])
  }

  function RoutesValue(ss: seq<Subnet>): Value {
    Map([Str(ROUTES), Arr(SubnetValues(ss))])
  }

  function CtrlValue(c: Ctrl): Value {
    match c
    case Hello(ss) => Map([Str(TAG), Str(HELLO), Str(CONTENT), RoutesValue(ss)])
    case Routes(ss) => Map([Str(TAG), Str(REFRESH), Str(CONTENT), RoutesValue(ss)])
    case Ping => Map([Str(TAG), Str(PING)])
  }

  function NatOf(v: Value): Option<nat> {
    match v
    case Int(n) => if n >= 0 then Some(n) else None
    case SignedNat(n) => Some(n)
    case _ => None
  }

  function SubnetOf(v: Value): Option<Subnet> {
    if !v.Arr? || |v.items| != 2 then None
    else
      match (NatOf(v.items[0]), NatOf(v.items[1]))
      case (Some(ip), Some(prefix)) => if ip < 0x1_0000_0000 && prefix < 0x100 then Some(Subnet(ip, prefix)) else None
      case _ => None
  }

  function SubnetsOf(vs: seq<Value>): Option<seq<Subnet>> {
    if vs == [] then Some([])
    else
      match SubnetOf(vs[0])
      case None => None
      case Some(s) =>
        match SubnetsOf(vs[1..])
        case None => None
        case Some(ss) => Some([s] + ss)
  }

  datatype Field = Absent | Present(v: Value) | Malformed

  /** A key names a field by its name, as text or bytes, or by its position, in an unsigned format.
      Nothing else can be a key. */
  predicate IsKey(key: Value) {
    key.Str? || key.Bin? || (key.Int? && key.n >= 0)
  }

  predicate KeyNames(key: Value, name: Bytes, position: nat) {
    match key
    case Str(s) => s == name
    case Bin(d) => d == name
    case Int(n) => n == position
    case _ => false
  }

  /** A field of a map: unknown keys are skipped, a repeated field is an error. */
  function FieldOf(flat: seq<Value>, name: Bytes, position: nat): Field {
    if |flat| < 2 then Absent
    else
      var rest := FieldOf(flat[2..], name, position);
      if !IsKey(flat[0]) then Malformed
      else if !KeyNames(flat[0], name, position) then rest
      else if rest.Absent? then Present(flat[1])
      else Malformed
  }

  function RouteArray(f: Field, default: Option<seq<Subnet>>): Option<seq<Subnet>> {
    match f
    case Absent => default
    case Malformed => None
    case Present(v) => if v.Arr? then SubnetsOf(v.items) else None
  }

  /** The one field of a body, which comes as a map or, by position, as an array. */
  function RoutesOf(v: Value, default: Option<seq<Subnet>>): Option<seq<Subnet>> {
    match v
    case Map(flat) => RouteArray(FieldOf(flat, ROUTES, 0), default)
    case Arr(items) =>
      if items == [] then default
      else if |items| == 1 then RouteArray(Present(items[0]), default)
      else None
    case _ => None
  }

  /** The two fields of a control frame, as a map or by position. */
  function TagAndContent(v: Value): (Field, Field) {
    match v
    case Map(flat) => (FieldOf(flat, TAG, 0), FieldOf(flat, CONTENT, 1))
    case Arr(items) => if |items| == 2 then (Present(items[0]), Present(items[1])) else (Malformed, Malformed)
    case _ => (Malformed, Malformed)
  }

  function CtrlOf(v: Value): Option<Ctrl> {
    var (tag, content) := TagAndContent(v);
    if !tag.Present? || content.Malformed? then None
    else if KeyNames(tag.v, PING, 2) then
      if content.Absent? || content.v.Nil? then Some(Ping) else None
    else if content.Absent? then None
    else
      match RoutesOf(content.v, None)
      case None => None
      case Some(ss) =>
        if KeyNames(tag.v, HELLO, 0) then Some(Hello(ss))
        else if KeyNames(tag.v, REFRESH, 1) then Some(Routes(ss))
        else None
  }

  // --- encoders and decoders ---

  predicate Sendable(c: Ctrl) {
    c.Ping? || |c.routes| < 0x1_0000_0000
  }

  function AnnounceBytes(rs: RouteList): Bytes {
    RoutesEncodable(FromCidrs(rs));
    ANNOUNCE_MAGIC + [ANNOUNCE_VERSION] + Encode(RoutesValue(FromCidrs(rs)))
  }

  function DecodeAnnounce(data: Bytes): Result<seq<Ipv4Cidr>, CodecError> {
    if |data| < 5 then Err(Short)
    else if data[..4] != ANNOUNCE_MAGIC then Err(BadMagic)
    else if data[4] != ANNOUNCE_VERSION then Err(Version(data[4]))
    else
      match AnnounceBody(data[5..])
      case None => Err(Decode)
      case Some(ss) => ToCidrs(ss)
  }

  function AnnounceBody(data: Bytes): Option<seq<Subnet>> {
    match Parse(data)
    case None => None
    case Some((v, _)) => RoutesOf(v, Some([]))
  }

  predicate IsAnnounce(data: Bytes) {
    |data| >= 5 && data[..4] == ANNOUNCE_MAGIC
  }

  function CtrlBytes(c: Ctrl): Bytes
    requires Sendable(c)
  {
    CtrlEncodable(c);
    [CTRL_TAG] + Encode(CtrlValue(c))
  }

  function DecodeCtrl(data: Bytes): Result<Ctrl, CodecError> {
    if data == [] || data[0] != CTRL_TAG then Err(BadMagic)
    else
      match Parse(data[1..])
      case None => Err(Decode)
      case Some((v, _)) =>
        match CtrlOf(v)
        case None => Err(Decode)
        case Some(c) => Ok(c)
  }

  predicate IsCtrl(data: Bytes) {
    data != [] && data[0] == CTRL_TAG
  }

  // --- what the encoders hand to MessagePack is encodable ---

  lemma {:induction false} SubnetValuesEncodable(ss: seq<Subnet>)
    ensures AllEncodable(SubnetValues(ss)) && |SubnetValues(ss)| == |ss|
  {
    if ss != [] {
      SubnetValuesEncodable(ss[1..]);
      var ints := [Int(ss[0].ip), Int(ss[0].prefix)];
      assert AllEncodable(ints[1..][1..]);
      assert AllEncodable(ints[1..]);
      assert AllEncodable(ints);
      var vs := SubnetValues(ss);
      assert vs[1..] == SubnetValues(ss[1..]);
    }
  }

  lemma PairEncodable(a: Value, b: Value, rest: seq<Value>)
    requires Encodable(a) && Encodable(b) && AllEncodable(rest)
    ensures AllEncodable([a, b] + rest)
  {
    var flat := [a, b] + rest;
    assert flat[1..] == [b] + rest;
    assert flat[1..][1..] == rest;
    assert AllEncodable(flat[1..]);
  }

  lemma RoutesEncodable(ss: seq<Subnet>)
    requires |ss| < 0x1_0000_0000
    ensures Encodable(RoutesValue(ss))
  {
    SubnetValuesEncodable(ss);
    PairEncodable(Str(ROUTES), Arr(SubnetValues(ss)), []);
    assert [Str(ROUTES), Arr(SubnetValues(ss))] == [Str(ROUTES), Arr(SubnetValues(ss))] + [];
  }

  lemma CtrlEncodable(c: Ctrl)
    requires Sendable(c)
    ensures Encodable(CtrlValue(c))
  {
    match c
    case Ping =>
      PairEncodable(Str(TAG), Str(PING), []);
      assert CtrlValue(c).flat == [Str(TAG), Str(PING)] + [];
    case _ =>
      var name := if c.Hello? then HELLO else REFRESH;
      RoutesEncodable(c.routes);
      PairEncodable(Str(CONTENT), RoutesValue(c.routes), []);
      assert [Str(CONTENT), RoutesValue(c.routes)] == [Str(CONTENT), RoutesValue(c.routes)] + [];
      PairEncodable(Str(TAG), Str(name), [Str(CONTENT), RoutesValue(c.routes)]);
      assert CtrlValue(c).flat == [Str(TAG), Str(name)] + [Str(CONTENT), RoutesValue(c.routes)];
  }

  // --- round trips ---

  lemma {:induction false} SubnetsOfSubnetValues(ss: seq<Subnet>)
    ensures SubnetsOf(SubnetValues(ss)) == Some(ss)
  {
    if ss != [] {
      SubnetsOfSubnetValues(ss[1..]);
      var vs := SubnetValues(ss);
      assert vs[1..] == SubnetValues(ss[1..]);
      assert SubnetOf(vs[0]) == Some(ss[0]);
      assert ss == [ss[0]] + ss[1..];
    }
  }

  lemma SingleField(name: Bytes, position: nat, v: Value)
    ensures FieldOf([Str(name), v], name, position) == Present(v)
  {
    assert FieldOf([Str(name), v][2..], name, position) == Absent;
  }

  lemma RoutesOfRoutesValue(ss: seq<Subnet>, default: Option<seq<Subnet>>)
    ensures RoutesOf(RoutesValue(ss), default) == Some(ss)
  {
    SubnetsOfSubnetValues(ss);
    SingleField(ROUTES, 0, Arr(SubnetValues(ss)));
  }

  lemma CtrlOfCtrlValue(c: Ctrl)
    ensures CtrlOf(CtrlValue(c)) == Some(c)
  {
    var flat := CtrlValue(c).flat;
    match c
    case Ping =>
      SingleField(TAG, 0, Str(PING));
      assert FieldOf(flat[2..], CONTENT, 1) == Absent;
    case _ =>
      RoutesOfRoutesValue(c.routes, None);
      var content := [Str(CONTENT), RoutesValue(c.routes)];
      assert flat[2..] == content;
      SingleField(CONTENT, 1, RoutesValue(c.routes));
      assert content[2..] == [];
      assert FieldOf(content, TAG, 0) == Absent;
      assert FieldOf(flat, TAG, 0) == Present(flat[1]);
      assert FieldOf(flat, CONTENT, 1) == Present(RoutesValue(c.routes));
  }

  /** Checking the received subnets succeeds exactly when all of them are canonical, keeps them in
      order, and otherwise names the prefix length of the first offender. */
  lemma {:induction false} ToCidrsExact(ss: seq<Subnet>)
    ensures ToCidrs(ss).Ok? <==> forall i :: 0 <= i < |ss| ==> Canonical(ss[i].ip, ss[i].prefix)
    ensures ToCidrs(ss).Ok? ==> FromCidrs(ToCidrs(ss).value) == ss
    ensures ToCidrs(ss).Err? ==>
        exists i :: 0 <= i < |ss| && FirstBad(ss, i) && ToCidrs(ss).error == Prefix(ss[i].prefix)
  {
    if ss != [] {
      ToCidrsExact(ss[1..]);
      if ToCidr(ss[0]).Err? {
        assert FirstBad(ss, 0);
      } else if ToCidrs(ss[1..]).Err? {
        var i :| 0 <= i < |ss[1..]| && FirstBad(ss[1..], i) && ToCidrs(ss[1..]).error == Prefix(ss[1..][i].prefix);
        forall j | 0 <= j < i + 1
          ensures Canonical(ss[j].ip, ss[j].prefix)
        {
          assert j > 0 ==> ss[j] == ss[1..][j - 1];
        }
        assert FirstBad(ss, i + 1);
      }
    }
  }

  ghost predicate FirstBad(ss: seq<Subnet>, i: nat) {
    && i < |ss| && !Canonical(ss[i].ip, ss[i].prefix)
    && forall j :: 0 <= j < i ==> Canonical(ss[j].ip, ss[j].prefix)
  }

  lemma {:induction false} ToCidrsFromCidrs(rs: seq<Ipv4Cidr>)
    ensures ToCidrs(FromCidrs(rs)) == Ok(rs)
  {
    ToCidrsExact(FromCidrs(rs));
    var back := ToCidrs(FromCidrs(rs)).value;
    forall i | 0 <= i < |rs|
      ensures back[i] == rs[i]
    {
      assert FromCidr(back[i]) == FromCidrs(rs)[i] == FromCidr(rs[i]);
    }
    assert back == rs;
  }

  /** Every announce decodes to the routes it was made from, even with bytes trailing it. */
  lemma AnnounceRoundTrip(rs: RouteList, trailing: Bytes)
    ensures DecodeAnnounce(AnnounceBytes(rs) + trailing) == Ok(rs)
    ensures IsAnnounce(AnnounceBytes(rs)) && !IsCtrl(AnnounceBytes(rs))
  {
    var ss := FromCidrs(rs);
    RoutesEncodable(ss);
    AnnounceOf(RoutesValue(ss), trailing);
    RoutesOfRoutesValue(ss, Some([]));
    ToCidrsFromCidrs(rs);
    assert AnnounceBytes(rs)[..4] == ANNOUNCE_MAGIC;
  }

  /** Announces in the other forms of a body mean the same: the routes by position, and no routes as an
      empty map or an empty array. */
  lemma AnnounceForms(rs: RouteList, trailing: Bytes)
    ensures var header := ANNOUNCE_MAGIC + [ANNOUNCE_VERSION]; var ss := SubnetValues(FromCidrs(rs));
      && Encodable(Arr([Arr(ss)]))
      && DecodeAnnounce(header + Encode(Arr([Arr(ss)])) + trailing) == Ok(rs)
      && DecodeAnnounce(header + Encode(Map([])) + trailing) == Ok([])
      && DecodeAnnounce(header + Encode(Arr([])) + trailing) == Ok([])
  {
    var ss := FromCidrs(rs);
    SubnetValuesEncodable(ss);
    assert AllEncodable([Arr(SubnetValues(ss))][1..]);
    SubnetsOfSubnetValues(ss);
    ToCidrsFromCidrs(rs);
    AnnounceOf(Arr([Arr(SubnetValues(ss))]), trailing);
    AnnounceOf(Map([]), trailing);
    AnnounceOf(Arr([]), trailing);
  }

  lemma AnnounceOf(v: Value, trailing: Bytes)
    requires Encodable(v)
    ensures DecodeAnnounce(ANNOUNCE_MAGIC + [ANNOUNCE_VERSION] + Encode(v) + trailing) ==
      match RoutesOf(v, Some([])) case None => Err(Decode) case Some(ss) => ToCidrs(ss)
  {
    var data := ANNOUNCE_MAGIC + [ANNOUNCE_VERSION] + Encode(v) + trailing;
    ParseEncode(v, trailing);
    assert data[..4] == ANNOUNCE_MAGIC && data[4] == ANNOUNCE_VERSION && data[5..] == Encode(v) + trailing;
  }

  lemma CtrlOfBytes(v: Value, trailing: Bytes)
    requires Encodable(v)
    ensures DecodeCtrl([CTRL_TAG] + Encode(v) + trailing) ==
      match CtrlOf(v) case None => Err(Decode) case Some(c) => Ok(c)
  {
    var data := [CTRL_TAG] + Encode(v) + trailing;
    ParseEncode(v, trailing);
    assert data[1..] == Encode(v) + trailing;
  }

  /** Every control message decodes to itself and is told apart from announces and IP packets. */
  lemma CtrlRoundTrip(c: Ctrl, trailing: Bytes)
    requires Sendable(c)
    ensures DecodeCtrl(CtrlBytes(c) + trailing) == Ok(c)
    ensures IsCtrl(CtrlBytes(c)) && !IsAnnounce(CtrlBytes(c))
    ensures CtrlBytes(c)[0] / 0x10 != 4 && CtrlBytes(c)[0] / 0x10 != 6
  {
    CtrlEncodable(c);
    CtrlOfBytes(CtrlValue(c), trailing);
    CtrlOfCtrlValue(c);
    TaggedIsNoAnnounce(Encode(CtrlValue(c)));
  }

  lemma TaggedIsNoAnnounce(body: Bytes)
    ensures IsCtrl([CTRL_TAG] + body) && !IsAnnounce([CTRL_TAG] + body)
  {
    var data := [CTRL_TAG] + body;
    assert |data| >= 4 ==> data[..4][0] == CTRL_TAG;
  }

  /** A hello or refresh built from canonical routes gives those routes back to its receiver. */
  lemma RouteMessageRoundTrip(rs: RouteList, refresh: bool)
    ensures var c := if refresh then Routes(FromCidrs(rs)) else Hello(FromCidrs(rs));
      DecodeCtrl(CtrlBytes(c)) == Ok(c) && ToCidrs(c.routes) == Ok(rs)
  {
    var c := if refresh then Routes(FromCidrs(rs)) else Hello(FromCidrs(rs));
    CtrlRoundTrip(c, []);
    assert CtrlBytes(c) + [] == CtrlBytes(c);
    ToCidrsFromCidrs(rs);
  }

  /** Whatever bytes arrive, an accepted announce carries exactly the subnets of its body, all of
      them canonical; a well-formed body is rejected only for a non-canonical subnet, by its length. */
  lemma AcceptedAnnounceIsCanonical(data: Bytes)
    ensures DecodeAnnounce(data).Ok? <==>
      && IsAnnounce(data) && data[4] == ANNOUNCE_VERSION && AnnounceBody(data[5..]).Some?
      && forall i :: 0 <= i < |AnnounceBody(data[5..]).value| ==>
           Canonical(AnnounceBody(data[5..]).value[i].ip, AnnounceBody(data[5..]).value[i].prefix)
    ensures DecodeAnnounce(data).Ok? ==> AnnounceBody(data[5..]) == Some(FromCidrs(DecodeAnnounce(data).value))
    ensures
      (IsAnnounce(data) && data[4] == ANNOUNCE_VERSION
       && AnnounceBody(data[5..]).Some? && DecodeAnnounce(data).Err?) ==>
      exists i: nat :: FirstBad(AnnounceBody(data[5..]).value, i)
          && DecodeAnnounce(data) == Err(Prefix(AnnounceBody(data[5..]).value[i].prefix))
  {
    if IsAnnounce(data) && AnnounceBody(data[5..]).Some? {
      ToCidrsExact(AnnounceBody(data[5..]).value);
    }
  }

  // --- the encoders, appending to their output ---

  method EncodeAnnounce(rs: RouteList) returns (out: Bytes)
    ensures out == AnnounceBytes(rs) && DecodeAnnounce(out) == Ok(rs)
  {
    RoutesEncodable(FromCidrs(rs));
    var body := RoutesValue(FromCidrs(rs));
    out := [];
    out := out + ANNOUNCE_MAGIC;
    out := out + [ANNOUNCE_VERSION];
    out := out + Encode(body);
    AnnounceRoundTrip(rs, []);
    assert out == AnnounceBytes(rs) == AnnounceBytes(rs) + [];
  }

  method EncodeCtrl(c: Ctrl) returns (out: Bytes)
    requires Sendable(c)
    ensures out == CtrlBytes(c) && DecodeCtrl(out) == Ok(c)
  {
    CtrlEncodable(c);
    out := [];
    out := out + [CTRL_TAG];
    out := out + Encode(CtrlValue(c));
    CtrlRoundTrip(c, []);
    assert out == CtrlBytes(c) == CtrlBytes(c) + [];
  }

  // --- which frames are which ---

  /** An IP packet, whose first four bits are its version, is never a control frame. */
  lemma IpPacketsAreNotCtrl(data: Bytes)
    requires data != [] && (data[0] / 0x10 == 4 || data[0] / 0x10 == 6)
    ensures !IsCtrl(data) && DecodeCtrl(data) == Err(BadMagic)
  {
  }

  /** Control frames are those that start with 0xfb; only they decode. */
  lemma CtrlIffTag(data: Bytes)
    ensures IsCtrl(data) <==> data != [] && data[0] == 0xfb
    ensures DecodeCtrl(data).Ok? ==> IsCtrl(data)
    ensures DecodeCtrl(data) == Err(BadMagic) <==> !IsCtrl(data)
    ensures IsCtrl(data) && !DecodeCtrl(data).Ok? ==> DecodeCtrl(data) == Err(Decode)
  {
  }

  /** Announces start with the letters kvpn and a version byte; the first thing that is wrong is the error. */
  lemma AnnounceErrors(data: Bytes)
    ensures |data| < 5 ==> DecodeAnnounce(data) == Err(Short) && !IsAnnounce(data)
    ensures |data| >= 5 ==> (IsAnnounce(data) <==> data[..4] == ['k' as nat, 'v' as nat, 'p' as nat, 'n' as nat])
    ensures |data| >= 5 && !IsAnnounce(data) ==> DecodeAnnounce(data) == Err(BadMagic)
    ensures IsAnnounce(data) && data[4] != 2 ==> DecodeAnnounce(data) == Err(Version(data[4]))
    ensures IsAnnounce(data) && data[4] == 2 ==>
      DecodeAnnounce(data) == match AnnounceBody(data[5..]) case None => Err(Decode) case Some(ss) => ToCidrs(ss)
  {
    assert ANNOUNCE_MAGIC == ['k' as nat, 'v' as nat, 'p' as nat, 'n' as nat];
  }

  // --- the bytes of a message ---

  function RouteBytes(ss: seq<Subnet>): Bytes {
    if ss == [] then [] else [0x92] + EncodeInt(ss[0].ip) + EncodeInt(ss[0].prefix) + RouteBytes(ss[1..])
  }

  lemma EncodeAllCons(v: Value, rest: seq<Value>)
    requires Encodable(v) && AllEncodable(rest)
    ensures AllEncodable([v] + rest) && EncodeAll([v] + rest) == Encode(v) + EncodeAll(rest)
  {
    assert ([v] + rest)[1..] == rest;
  }

  lemma PairBytes(a: Value, b: Value, rest: seq<Value>)
    requires Encodable(a) && Encodable(b) && AllEncodable(rest)
    ensures AllEncodable([a, b] + rest) && EncodeAll([a, b] + rest) == Encode(a) + Encode(b) + EncodeAll(rest)
  {
    EncodeAllCons(b, rest);
    EncodeAllCons(a, [b] + rest);
    assert [a] + ([b] + rest) == [a, b] + rest;
  }

  lemma {:induction false} SubnetBytes(ss: seq<Subnet>)
    ensures AllEncodable(SubnetValues(ss)) && |SubnetValues(ss)| == |ss|
    ensures EncodeAll(SubnetValues(ss)) == RouteBytes(ss)
  {
    SubnetValuesEncodable(ss);
    if ss != [] {
      SubnetBytes(ss[1..]);
      var vs := SubnetValues(ss);
      assert vs[1..] == SubnetValues(ss[1..]);
      PairBytes(Int(ss[0].ip), Int(ss[0].prefix), []);
      assert [Int(ss[0].ip), Int(ss[0].prefix)] + [] == [Int(ss[0].ip), Int(ss[0].prefix)];
      assert Encode(vs[0]) == [0x92] + (EncodeInt(ss[0].ip) + EncodeInt(ss[0].prefix));
    }
  }

  /** How many routes follow. */
  function CountBytes(n: nat): Bytes
    requires n < 0x1_0000_0000
  {
    if n < 16 then [0x90 + n] else if n < 0x1_0000 then [0xdc] + BigEndian(n, 2) else [0xdd] + BigEndian(n, 4)
  }

  lemma ShortText(text: Bytes)
    requires |text| < 0x20
    ensures Encode(Str(text)) == [0xa0 + |text|] + text
  {
  }

  lemma ArrayHead(n: nat)
    requires n < 0x1_0000_0000
    ensures EncodeHead(HArr(n)) == CountBytes(n)
  {
  }

  lemma ListBytes(ss: seq<Subnet>)
    requires |ss| < 0x1_0000_0000
    ensures Encodable(Arr(SubnetValues(ss))) && Encode(Arr(SubnetValues(ss))) == CountBytes(|ss|) + RouteBytes(ss)
  {
    SubnetBytes(ss);
    ArrayHead(|ss|);
  }

  lemma MapHeads()
    ensures EncodeHead(HMap(1)) == [0x81] && EncodeHead(HMap(2)) == [0x82]
  {
  }

  lemma MapBytes(flat: seq<Value>)
    requires Encodable(Map(flat))
    ensures Encode(Map(flat)) == EncodeHead(HMap(|flat| / 2)) + EncodeAll(flat)
  {
  }

  lemma TwoBytes(a: Value, b: Value)
    requires Encodable(a) && Encodable(b)
    ensures AllEncodable([a, b]) && EncodeAll([a, b]) == Encode(a) + Encode(b)
  {
    PairBytes(a, b, []);
    assert [a, b] + [] == [a, b];
    assert Encode(a) + Encode(b) + [] == Encode(a) + Encode(b);
  }

  lemma FourValues(a: Value, b: Value, c: Value, d: Value)
    requires Encodable(a) && Encodable(b) && Encodable(c) && Encodable(d)
    ensures AllEncodable([a, b, c, d])
    ensures EncodeAll([a, b, c, d]) == Encode(a) + Encode(b) + (Encode(c) + Encode(d))
  {
    TwoBytes(c, d);
    PairBytes(a, b, [c, d]);
    assert [a, b] + [c, d] == [a, b, c, d];
  }

  lemma Joined(head: Bytes, a: Bytes, b: Bytes, c: Bytes, d: Bytes)
    ensures head + (a + b + (c + d)) == head + a + b + c + d
    ensures head + (a + b) == head + a + b
  {
  }

  lemma OneEntryBytes(a: Value, b: Value)
    requires Encodable(a) && Encodable(b)
    ensures Encodable(Map([a, b])) && Encode(Map([a, b])) == [0x81] + Encode(a) + Encode(b)
  {
    TwoBytes(a, b);
    MapHeads();
    MapBytes([a, b]);
    Joined([0x81], Encode(a), Encode(b), [], []);
  }

  lemma TwoEntryBytes(a: Value, b: Value, c: Value, d: Value)
    requires Encodable(a) && Encodable(b) && Encodable(c) && Encodable(d)
    ensures Encodable(Map([a, b, c, d]))
    ensures Encode(Map([a, b, c, d])) == [0x82] + Encode(a) + Encode(b) + Encode(c) + Encode(d)
  {
    FourValues(a, b, c, d);
    MapHeads();
    MapBytes([a, b, c, d]);
    Joined([0x82], Encode(a), Encode(b), Encode(c), Encode(d));
  }

  /** The body of an announce, and of a hello or refresh: a map of one entry, "routes". */
  function BodyBytes(ss: seq<Subnet>): Bytes
    requires |ss| < 0x1_0000_0000
  {
    [0x81, 0xa6, 'r' as nat, 'o' as nat, 'u' as nat, 't' as nat, 'e' as nat, 's' as nat] + CountBytes(|ss|) +
    RouteBytes(ss)
  }

  lemma RoutesBytes(ss: seq<Subnet>)
    requires |ss| < 0x1_0000_0000
    ensures Encodable(RoutesValue(ss)) && Encode(RoutesValue(ss)) == BodyBytes(ss)
  {
    ListBytes(ss);
    OneEntryBytes(Str(ROUTES), Arr(SubnetValues(ss)));
    ShortText(ROUTES);
    NameInBody(Encode(Arr(SubnetValues(ss))));
    assert BodyBytes(ss) == [0x81, 0xa6, 'r' as nat, 'o' as nat, 'u' as nat, 't' as nat, 'e' as nat, 's' as nat]
        + (CountBytes(|ss|) + RouteBytes(ss));
  }

  lemma NameInBody(list: Bytes)
    ensures [0x81] + ([0xa6] + ROUTES) + list ==
      [0x81, 0xa6, 'r' as nat, 'o' as nat, 'u' as nat, 't' as nat, 'e' as nat, 's' as nat] + list
  {
  }

  /** The bytes of an announce. */
  lemma AnnounceByteByByte(rs: RouteList)
    ensures AnnounceBytes(rs) == ['k' as nat, 'v' as nat, 'p' as nat, 'n' as nat, 2] + BodyBytes(FromCidrs(rs))
  {
    RoutesBytes(FromCidrs(rs));
    var start: Bytes := ['k' as nat, 'v' as nat, 'p' as nat, 'n' as nat, 2];
    assert ANNOUNCE_MAGIC + [ANNOUNCE_VERSION] == start;
  }

  /** The bytes of a control frame: a map of the tag "t" and, but for pings, the content "v". */
  lemma CtrlByteByByte(c: Ctrl)
    requires Sendable(c)
    ensures CtrlBytes(c) ==
      match c
      case Ping => [0xfb, 0x81, 0xa1, 't' as nat, 0xa1, 'p' as nat]
      case Hello(ss) => [0xfb, 0x82, 0xa1, 't' as nat, 0xa1, 'h' as nat, 0xa1, 'v' as nat] + BodyBytes(ss)
      case Routes(ss) => [0xfb, 0x82, 0xa1, 't' as nat, 0xa1, 'r' as nat, 0xa1, 'v' as nat] + BodyBytes(ss)
  {
    match c
    case Ping => PingBytes();
    case Hello(ss) => TaggedBytes(c, HELLO);
    case Routes(ss) => TaggedBytes(c, REFRESH);
  }

  lemma PingBytes()
    ensures CtrlBytes(Ping) == [0xfb, 0x81, 0xa1, 't' as nat, 0xa1, 'p' as nat]
  {
    CtrlEncodable(Ping);
    OneEntryBytes(Str(TAG), Str(PING));
    ShortText(TAG);
    ShortText(PING);
  }

  lemma TaggedBytes(c: Ctrl, name: Bytes)
    requires Sendable(c) && !c.Ping? && |name| == 1 && name == (if c.Hello? then HELLO else REFRESH)
    ensures CtrlBytes(c) == [0xfb, 0x82, 0xa1, 't' as nat, 0xa1, name[0], 0xa1, 'v' as nat] + BodyBytes(c.routes)
  {
    CtrlEncodable(c);
    RoutesBytes(c.routes);
    TwoEntryBytes(Str(TAG), Str(name), Str(CONTENT), RoutesValue(c.routes));
    ShortText(TAG);
    ShortText(name);
    ShortText(CONTENT);
    NamesJoined(name, BodyBytes(c.routes));
  }

  lemma NamesJoined(name: Bytes, body: Bytes)
    requires |name| == 1
    ensures [CTRL_TAG] + ([0x82] + ([0xa1] + TAG) + ([0xa1] + name) + ([0xa1] + CONTENT) + body) ==
      [0xfb, 0x82, 0xa1, 't' as nat, 0xa1, name[0], 0xa1, 'v' as nat] + body
  {
  }

  // --- which bodies are accepted ---

  type Entry = (Value, Value)

  function Entries(flat: seq<Value>): (es: seq<Entry>)
    ensures |es| == |flat| / 2 && forall p :: 0 <= p < |es| ==> es[p] == (flat[2 * p], flat[2 * p + 1])
  {
    seq(|flat| / 2, p requires 0 <= p < |flat| / 2 => (flat[2 * p], flat[2 * p + 1]))
  }

  lemma EntriesOfRest(flat: seq<Value>)
    requires |flat| >= 2
    ensures Entries(flat) == [(flat[0], flat[1])] + Entries(flat[2..])
  {
  }

  /** The entry is named so: by its text, as text or bytes, or by its place among the fields. */
  predicate Named(e: Entry, text: Bytes, place: nat) {
    e.0 == Str(text) || e.0 == Bin(text) || e.0 == Int(place)
  }

  /** Every key is a text, bytes, or a number in an unsigned format. */
  predicate KeysInOrder(es: seq<Entry>) {
    forall p :: 0 <= p < |es| ==> es[p].0.Str? || es[p].0.Bin? || (es[p].0.Int? && es[p].0.n >= 0)
  }

  /** The values of the entries named so, in order. */
  function ValuesOf(es: seq<Entry>, text: Bytes, place: nat): seq<Value> {
    if es == [] then [] else (if Named(es[0], text, place) then [es[0].1] else []) + ValuesOf(es[1..], text, place)
  }

  /** A field is absent exactly if all keys are keys and no entry has its name, and present with a value
      exactly if just one entry has, with that value; anything else is malformed. */
  lemma {:induction false} FieldExactly(flat: seq<Value>, text: Bytes, place: nat)
    ensures var es := Entries(flat); var vs := ValuesOf(es, text, place);
      FieldOf(flat, text, place) ==
        if KeysInOrder(es) && vs == [] then Absent
        else if KeysInOrder(es) && |vs| == 1 then Present(vs[0])
        else Malformed
    decreases |flat|
  {
    if |flat| >= 2 {
      var es, rest := Entries(flat), Entries(flat[2..]);
      FieldExactly(flat[2..], text, place);
      EntriesOfRest(flat);
      assert es[0] == (flat[0], flat[1]) && es[1..] == rest;
      KeysOfRest((flat[0], flat[1]), rest);
    }
  }

  lemma KeysOfRest(e: Entry, rest: seq<Entry>)
    ensures KeysInOrder([e] + rest) <==> IsKey(e.0) && KeysInOrder(rest)
  {
    var es := [e] + rest;
    assert es[0] == e;
    assert forall p :: 0 <= p < |rest| ==> rest[p] == es[p + 1];
    assert forall p :: 0 < p < |es| ==> es[p] == rest[p - 1];
  }

  /** One route: two numbers, in whatever format, within four bytes and one byte. */
  predicate Spells(v: Value, s: Subnet) {
    && v.Arr? && |v.items| == 2
    && (v.items[0] == Int(s.ip) || v.items[0] == SignedNat(s.ip))
    && (v.items[1] == Int(s.prefix) || v.items[1] == SignedNat(s.prefix))
  }

  /** A list of routes is read exactly if each value spells one. */
  lemma {:induction false} SubnetsExactly(vs: seq<Value>, ss: seq<Subnet>)
    ensures SubnetsOf(vs) == Some(ss) <==> |vs| == |ss| && forall i :: 0 <= i < |vs| ==> Spells(vs[i], ss[i])
  {
    if vs != [] && ss != [] {
      SubnetsExactly(vs[1..], ss[1..]);
      assert forall i :: 0 < i < |vs| ==> vs[i] == vs[1..][i - 1];
      assert forall i :: 0 < i < |ss| ==> ss[i] == ss[1..][i - 1];
      assert forall i :: 0 <= i < |vs| - 1 ==> vs[1..][i] == vs[i + 1];
      assert forall i :: 0 <= i < |ss| - 1 ==> ss[1..][i] == ss[i + 1];
      assert ss == [ss[0]] + ss[1..];
      assert SubnetOf(vs[0]) == Some(ss[0]) <==> Spells(vs[0], ss[0]);
    }
  }

  /** The value stands for these routes: an array in which each value spells one. */
  predicate SpellsAll(v: Value, ss: seq<Subnet>) {
    v.Arr? && |v.items| == |ss| && forall i :: 0 <= i < |ss| ==> Spells(v.items[i], ss[i])
  }

  /** The body carries these routes under the name "routes", or as its first and only element. */
  predicate CarriesRoutes(v: Value, ss: seq<Subnet>) {
    match v
    case Map(flat) =>
      var vs := ValuesOf(Entries(flat), ['r' as nat, 'o' as nat, 'u' as nat, 't' as nat, 'e' as nat, 's' as nat], 0);
      KeysInOrder(Entries(flat)) && |vs| == 1 && SpellsAll(vs[0], ss)
    case Arr(items) => |items| == 1 && SpellsAll(items[0], ss)
    case _ => false
  }

  /** The body has no such field, which the default stands for. */
  predicate CarriesNothing(v: Value) {
    match v
    case Map(flat) =>
      var vs := ValuesOf(Entries(flat), ['r' as nat, 'o' as nat, 'u' as nat, 't' as nat, 'e' as nat, 's' as nat], 0);
      KeysInOrder(Entries(flat)) && vs == []
    case Arr(items) => items == []
    case _ => false
  }

  lemma RoutesExactly(v: Value, default: Option<seq<Subnet>>, ss: seq<Subnet>)
    ensures RoutesOf(v, default) == Some(ss) <==> CarriesRoutes(v, ss) || (CarriesNothing(v) && default == Some(ss))
  {
    match v
    case Map(flat) =>
      FieldExactly(flat, ROUTES, 0);
      var letters: Bytes := ['r' as nat, 'o' as nat, 'u' as nat, 't' as nat, 'e' as nat, 's' as nat];
      assert ROUTES == letters;
      var f := FieldOf(flat, ROUTES, 0);
      if f.Present? && f.v.Arr? {
        SubnetsExactly(f.v.items, ss);
      }
    case Arr(items) =>
      if |items| == 1 && items[0].Arr? {
        SubnetsExactly(items[0].items, ss);
      }
    case _ =>
  }

  /** Announces are accepted exactly if the header is right, a body follows that carries routes or nothing, and
      every route is a canonical prefix; whatever follows the body does not matter. */
  lemma AnnounceAcceptedIff(data: Bytes, rs: seq<Ipv4Cidr>)
    ensures DecodeAnnounce(data) == Ok(rs) <==>
      && |data| >= 5 && data[..5] == ['k' as nat, 'v' as nat, 'p' as nat, 'n' as nat, 2]
      && Parse(data[5..]).Some?
      && var body := Parse(data[5..]).value.0;
        CarriesRoutes(body, FromCidrs(rs)) || (CarriesNothing(body) && rs == [])
  {
    AnnounceErrors(data);
    if |data| >= 5 {
      assert data[..5] == data[..4] + [data[4]];
      if Parse(data[5..]).Some? {
        var body := Parse(data[5..]).value.0;
        RoutesExactly(body, Some([]), FromCidrs(rs));
        ToCidrsFromCidrs(rs);
        var found := RoutesOf(body, Some([]));
        if found.Some? {
          ToCidrsExact(found.value);
          if ToCidrs(found.value) == Ok(rs) {
            assert found.value == FromCidrs(rs);
          }
        }
        assert FromCidrs(rs) == [] <==> rs == [];
      }
    }
  }

  /** The value is the name, as text or bytes, or the place of a variant. */
  predicate Means(v: Value, letter: byte, place: nat) {
    v == Str([letter]) || v == Bin([letter]) || v == Int(place)
  }

  /** The value carries this message: its name under "t" and, but for pings, its routes under "v"; or the two
      by position. */
  predicate CarriesCtrl(v: Value, c: Ctrl) {
    match v
    case Map(flat) =>
      var es := Entries(flat);
      var tags, contents := ValuesOf(es, ['t' as nat], 0), ValuesOf(es, ['v' as nat], 1);
      && KeysInOrder(es) && |tags| == 1 && |contents| <= 1
      && CarriesMessage(tags[0], if contents == [] then None else Some(contents[0]), c)
    case Arr(items) => |items| == 2 && CarriesMessage(items[0], Some(items[1]), c)
    case _ => false
  }

  predicate CarriesMessage(tag: Value, content: Option<Value>, c: Ctrl) {
    match c
    case Hello(ss) => Means(tag, 'h' as nat, 0) && content.Some? && CarriesRoutes(content.value, ss)
    case Routes(ss) => Means(tag, 'r' as nat, 1) && content.Some? && CarriesRoutes(content.value, ss)
    case Ping => Means(tag, 'p' as nat, 2) && (content == None || content == Some(Nil))
  }

  lemma MessageExactly(tag: Field, content: Field, c: Ctrl, v: Value)
    requires TagAndContent(v) == (tag, content)
    ensures CtrlOf(v) == Some(c) <==>
      && tag.Present? && !content.Malformed?
      && CarriesMessage(tag.v, if content.Present? then Some(content.v) else None, c)
  {
    assert HELLO == ['h' as nat] && REFRESH == ['r' as nat] && PING == ['p' as nat];
    if content.Present? && !c.Ping? {
      RoutesExactly(content.v, None, c.routes);
    }
  }

  /** Control frames are accepted exactly if they start with 0xfb and a value follows that carries the message. */
  lemma CtrlAcceptedIff(data: Bytes, c: Ctrl)
    ensures DecodeCtrl(data) == Ok(c) <==>
      data != [] && data[0] == 0xfb && Parse(data[1..]).Some? && CarriesCtrl(Parse(data[1..]).value.0, c)
  {
    if data != [] && data[0] == 0xfb && Parse(data[1..]).Some? {
      var v := Parse(data[1..]).value.0;
      var (tag, content) := TagAndContent(v);
      MessageExactly(tag, content, c, v);
      if v.Map? {
        FieldExactly(v.flat, TAG, 0);
        FieldExactly(v.flat, CONTENT, 1);
        assert TAG == ['t' as nat] && CONTENT == ['v' as nat];
      }
    }
  }
}

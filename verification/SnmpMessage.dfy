/** SNMPv2c messages of core/snmp_collect.py: the request builder, the cursor parser for whatever
    arrives on the socket, and the choice of the datagram that counts as the reply. */
module SnmpMessage {
  import opened Wrappers
  import opened Decimal
  import opened Ber

  /** BadReply is dropped and the wait goes on; AgentError (RuntimeError) ends the exchange. */
  datatype Fault = BadReply | AgentError(status: int)

  datatype Value = Null | Int(n: int) | Text(oid: string) | Octets(raw: seq<byte>)

  type Varbind = (string, Value)

  // ---- Parsing ----

  /** `data[a:a + n]`: a slice past the end is cut short, not refused. */
  function Slice(data: seq<byte>, a: nat, n: nat): seq<byte> {
    if a >= |data| then [] else if a + n <= |data| then data[a..a + n] else data[a..]
  }

  function ByteAt(data: seq<byte>, i: nat): Result<byte, Fault> {
    if i < |data| then Success(data[i]) else Failure(BadReply)
  }

  function LenAt(data: seq<byte>, i: nat): (r: Result<(nat, nat), Fault>)
    ensures r.Success? ==> i < r.value.1 <= |data|
  {
    match ReadLen(data, i)
    case Some(r) => Success(r)
    case None => Failure(BadReply)
  }

  /** A slice is what there is of the octets asked for. */
  lemma SliceIs(data: seq<byte>, a: nat, n: nat)
    ensures |Slice(data, a, n)| == (if a + n <= |data| then n else if a <= |data| then |data| - a else 0)
    ensures forall k :: 0 <= k < |Slice(data, a, n)| ==> Slice(data, a, n)[k] == data[a + k]
  {
  }

  datatype Preamble = Preamble(community: seq<byte>, rid: int, status: int, next: nat)

  /** Everything up to and including error-index, with the two identity checks on the way. */
  function ReadPreamble(data: seq<byte>, wantRid: Option<int>, wantCommunity: Option<seq<byte>>)
    : Result<Preamble, Fault>
  {
    var tag :- ByteAt(data, 0);
    if tag != 0x30 then Failure(BadReply) else
    var (_, version) :- LenAt(data, 1);
    var (versionLen, v) :- LenAt(data, version + 1);
    var (communityLen, c) :- LenAt(data, v + versionLen + 1);
    var community := Slice(data, c, communityLen);
    if wantCommunity.Some? && community != wantCommunity.value then Failure(BadReply) else
    var pduTag :- ByteAt(data, c + communityLen);
    if pduTag !in {0xA2, 0xA5, 0xA0, 0xA1} then Failure(BadReply) else
    var (_, requestId) :- LenAt(data, c + communityLen + 1);
    var (ridLen, r) :- LenAt(data, requestId + 1);
    var rid := Signed(Slice(data, r, ridLen));
    if wantRid.Some? && rid != wantRid.value then Failure(BadReply) else
    var (statusLen, s) :- LenAt(data, r + ridLen + 1);
    var status := Signed(Slice(data, s, statusLen));
    var (indexLen, x) :- LenAt(data, s + statusLen + 1);
    Success(Preamble(community, rid, status, x + indexLen))
  }

  function DecodeValue(tag: byte, raw: seq<byte>): Value {
    if tag in {0x80, 0x81, 0x82} then Null
    else if tag == 0x02 then Int(Signed(raw))
    else if tag in {0x41, 0x42, 0x43, 0x46} then Int(Unsigned(raw))
    else if tag == 0x06 then Text(DecOid(raw))
    else if tag == 0x05 then Null
    else Octets(raw)
  }

  /** One varbind at index `i`: the pair and the index after it, or None where the loop breaks off. */
  function ReadBind(data: seq<byte>, i: nat): (r: Result<Option<(Varbind, nat)>, Fault>)
    ensures r.Success? && r.value.Some? ==> i + 2 <= r.value.value.1 && i < |data|
  {
    var tag :- ByteAt(data, i);
    if tag != 0x30 then Success(None) else
    var (bindLen, o) :- LenAt(data, i + 1);
    var oidTag :- ByteAt(data, o);
    if oidTag != 0x06 then Success(None) else
    var (oidLen, j) :- LenAt(data, o + 1);
    var oid := DecOid(Slice(data, j, oidLen));
    var valueTag :- ByteAt(data, j + oidLen);
    var (valueLen, k) :- LenAt(data, j + oidLen + 1);
    Success(Some(((oid, DecodeValue(valueTag, Slice(data, k, valueLen))), o + bindLen)))
  }

  /** The varbind loop from index `i` on. */
  function ReadBinds(data: seq<byte>, i: nat, end: nat): Result<seq<Varbind>, Fault>
    decreases |data| - i
  {
    if i >= end then Success([]) else
    var bind :- ReadBind(data, i);
    if bind.None? then Success([]) else
    var (vb, next) := bind.value;
    var rest :- ReadBinds(data, next, end);
    Success([vb] + rest)
  }

  function ParseVarbinds(data: seq<byte>, wantRid: Option<int>, wantCommunity: Option<seq<byte>>)
    : Result<seq<Varbind>, Fault>
  {
    var p :- ReadPreamble(data, wantRid, wantCommunity);
    if p.status != 0 then Failure(AgentError(p.status)) else
    var tag :- ByteAt(data, p.next);
    if tag != 0x30 then Failure(BadReply) else
    var (total, i) :- LenAt(data, p.next + 1);
    ReadBinds(data, i, i + total)
  }

  /** `_parse_varbinds`: the cursor loop. It advances on every octet string there is. */
  method Parse(data: seq<byte>, wantRid: Option<int>, wantCommunity: Option<seq<byte>>)
    returns (r: Result<seq<Varbind>, Fault>)
    ensures r == ParseVarbinds(data, wantRid, wantCommunity)
    ensures r.Success? ==> 2 * |r.value| <= |data|
  {
    hide ReadLen, ReadBind, ReadPreamble, LenAt, ByteAt;
    var p :- ReadPreamble(data, wantRid, wantCommunity);
    if p.status != 0 {
      return Failure(AgentError(p.status));
    }
    var tag :- ByteAt(data, p.next);
    if tag != 0x30 {
      return Failure(BadReply);
    }
    var header :- LenAt(data, p.next + 1);
    var start := header.1;
    var i, end := start, start + header.0;
    var out: seq<Varbind> := [];
    assert forall rest: seq<Varbind> :: out + rest == rest;
    while i < end
      invariant 0 < start <= i && 2 * |out| <= i - start && 2 * |out| <= |data|
      invariant ReadBinds(data, start, end) ==
        match ReadBinds(data, i, end) { case Success(rest) => Success(out + rest) case Failure(f) => Failure(f) }
      decreases |data| - i
    {
      var bind :- ReadBind(data, i);
      if bind.None? {
        assert out + [] == out;
        break;
      }
      ghost var before := out;
      out := out + [bind.value.0];
      i := bind.value.1;
      assert forall rest :: out + rest == before + ([bind.value.0] + rest);
    }
    assert out + [] == out;
    r := Success(out);
  }

  /** Any datagram at all is taken for the reply to at most one request: one that is accepted, or that
      reports an agent error, under one request id and community is BadReply under any other. */
  lemma AcceptedForOneRequestOnly(data: seq<byte>, rid: int, community: seq<byte>, rid': int, community': seq<byte>)
    requires (rid, community) != (rid', community')
    requires ParseVarbinds(data, Some(rid), Some(community)) != Failure(BadReply)
    ensures ParseVarbinds(data, Some(rid'), Some(community')) == Failure(BadReply)
  {
    var a := ReadPreamble(data, Some(rid), Some(community));
    var b := ReadPreamble(data, Some(rid'), Some(community'));
    assert a.Success? && a.value.rid == rid && a.value.community == community;
    assert b == Failure(BadReply);
  }

  // ---- Building ----

  datatype WireBind = WireBind(oid: string, tag: byte, raw: seq<byte>)

  function EncBind(w: WireBind): Option<seq<byte>> {
    var oid :- EncOid(w.oid);
    var value :- Tlv(w.tag, w.raw);
    Tlv(0x30, oid + value)
  }

  function EncBinds(ws: seq<WireBind>): Option<seq<byte>> {
    if ws == [] then Some([]) else
    var first :- EncBind(ws[0]);
    var rest :- EncBinds(ws[1..]);
    Some(first + rest)
  }

  function EncPdu(tag: byte, rid: int, a: int, b: int, ws: seq<WireBind>): Option<seq<byte>> {
    var binds :- EncBinds(ws);
    var requestId :- EncInt(rid);
    var status :- EncInt(a);
    var index :- EncInt(b);
    var list :- Tlv(0x30, binds);
    Tlv(tag, requestId + (status + (index + list)))
  }

  /** A whole message; fields `a` and `b` are error-status and error-index, or non-repeaters and
      max-repetitions in a GETBULK request. */
  function EncMessage(version: int, community: seq<byte>, tag: byte, rid: int, a: int, b: int, ws: seq<WireBind>)
    : Option<seq<byte>>
  {
    var ver :- EncInt(version);
    var com :- Tlv(0x04, community);
    var pdu :- EncPdu(tag, rid, a, b, ws);
    Tlv(0x30, ver + (com + pdu))
  }

  // ---- Round trips ----

  /** The decoder splits the first octet with 40, so a second arc of 40 or more is misread. */
  predicate Readable(oid: string) {
    Arcs(oid).Some? && |Arcs(oid).value| >= 2 && Arcs(oid).value[1] < 40
  }

  function Decoded(ws: seq<WireBind>): (vs: seq<Varbind>)
    ensures |vs| == |ws|
    ensures forall k :: 0 <= k < |ws| ==> vs[k] == DecodedBind(ws[k])
  {
    if ws == [] then [] else [DecodedBind(ws[0])] + Decoded(ws[1..])
  }

  function DecodedBind(w: WireBind): Varbind { (Canonical(w.oid), DecodeValue(w.tag, w.raw)) }

  /** The identifier as the decoder prints it: no empty parts, no leading zeros. */
  function Canonical(oid: string): string {
    match Arcs(oid) case Some(arcs) => Dotted(arcs) case None => oid
  }

  lemma SliceOfAt(data: seq<byte>, i: nat, t: seq<byte>)
    requires At(data, i, t)
    ensures Slice(data, i, |t|) == t
  {
  }

  /** Where a TLV's contents are found, as (length, start), and what the parser reads there. */
  lemma Field(tag: byte, body: seq<byte>, data: seq<byte>, i: nat) returns (f: (nat, nat))
    requires Tlv(tag, body).Some? && At(data, i, Tlv(tag, body).value) && Short(|Tlv(tag, body).value|)
    ensures Short(|body|) && At(data, f.1, body)
    ensures ByteAt(data, i) == Success(tag) && LenAt(data, i + 1) == Success(f)
    ensures f.0 == |body| && f.1 + f.0 == i + |Tlv(tag, body).value| && Slice(data, f.1, f.0) == body
  {
    hide EncLen;
    TlvShort(tag, body);
    TlvRead(tag, body, data, i);
    f := (|body|, i + |Tlv(tag, body).value| - |body|);
    SliceOfAt(data, f.1, body);
  }

  lemma ReadBindParts(data: seq<byte>, i: nat, bind: (nat, nat), oid: (nat, nat), tag: byte, value: (nat, nat))
    requires ByteAt(data, i) == Success(0x30) && LenAt(data, i + 1) == Success(bind)
    requires ByteAt(data, bind.1) == Success(0x06) && LenAt(data, bind.1 + 1) == Success(oid)
    requires ByteAt(data, oid.1 + oid.0) == Success(tag) && LenAt(data, oid.1 + oid.0 + 1) == Success(value)
    ensures ReadBind(data, i) == Success(Some(((DecOid(Slice(data, oid.1, oid.0)),
                                                DecodeValue(tag, Slice(data, value.1, value.0))), bind.1 + bind.0)))
  {
    hide ReadLen, Slice, DecOid, DecodeValue, LenAt;
  }

  lemma BindRead(w: WireBind, data: seq<byte>, i: nat)
    requires EncBind(w).Some? && Short(|EncBind(w).value|) && At(data, i, EncBind(w).value) && Readable(w.oid)
    ensures ReadBind(data, i) == Success(Some((DecodedBind(w), i + |EncBind(w).value|)))
  {
    hide ReadLen, EncLen, Slice, At, Tlv, LengthOctets, DecOid, DecodeValue, Dotted, Split;
    var oid, value := EncOid(w.oid).value, Tlv(w.tag, w.raw).value;
    var content := OidContent(Arcs(w.oid).value).value;
    var bind := Field(0x30, oid + value, data, i);
    AtSplit(data, bind.1, oid, value);
    LengthOctetsMonotone(|oid|, |oid + value|);
    LengthOctetsMonotone(|value|, |oid + value|);
    var o := Field(6, content, data, bind.1);
    var v := Field(w.tag, w.raw, data, bind.1 + |oid|);
    ReadBindParts(data, i, bind, o, w.tag, v);
    OidRoundTripIff(Arcs(w.oid).value);
  }

  lemma {:induction false} BindsRead(ws: seq<WireBind>, data: seq<byte>, i: nat)
    requires EncBinds(ws).Some? && Short(|EncBinds(ws).value|) && At(data, i, EncBinds(ws).value)
    requires forall k :: 0 <= k < |ws| ==> Readable(ws[k].oid)
    ensures ReadBinds(data, i, i + |EncBinds(ws).value|) == Success(Decoded(ws))
  {
    hide EncBind, ReadBind, LengthOctets, Arcs, DecodedBind;
    if ws != [] {
      var first, rest := EncBind(ws[0]).value, EncBinds(ws[1..]).value;
      LengthOctetsMonotone(|first|, |first + rest|);
      LengthOctetsMonotone(|rest|, |first + rest|);
      AtSplit(data, i, first, rest);
      BindRead(ws[0], data, i);
      BindsRead(ws[1..], data, i + |first|);
    }
  }

  /** Something other than a SEQUENCE that starts with an OBJECT IDENTIFIER. */
  predicate Stranger(data: seq<byte>, i: nat) {
    i < |data| && (data[i] != 0x30 || (LenAt(data, i + 1).Success? &&
      LenAt(data, i + 1).value.1 < |data| && data[LenAt(data, i + 1).value.1] != 0x06))
  }

  lemma StrangerStops(data: seq<byte>, i: nat, end: nat)
    requires i < end && Stranger(data, i)
    ensures ReadBinds(data, i, end) == Success([])
  {
    hide ReadLen, Slice, DecOid, DecodeValue, LenAt;
  }

  /** An element that is no varbind ends the list without an error; what stood before it is kept. */
  lemma {:induction false} StrangerEndsList(ws: seq<WireBind>, data: seq<byte>, i: nat, end: nat)
    requires EncBinds(ws).Some? && Short(|EncBinds(ws).value|) && At(data, i, EncBinds(ws).value)
    requires forall k :: 0 <= k < |ws| ==> Readable(ws[k].oid)
    requires var next := i + |EncBinds(ws).value|; next < end && Stranger(data, next)
    ensures ReadBinds(data, i, end) == Success(Decoded(ws))
  {
    hide EncBind, LengthOctets, Arcs, DecodedBind, Slice, ReadLen, ReadBind, Stranger, LenAt, Readable;
    if ws == [] {
      StrangerStops(data, i, end);
    } else {
      var first, rest := EncBind(ws[0]).value, EncBinds(ws[1..]).value;
      LengthOctetsMonotone(|first|, |first + rest|);
      LengthOctetsMonotone(|rest|, |first + rest|);
      AtSplit(data, i, first, rest);
      BindRead(ws[0], data, i);
      StrangerEndsList(ws[1..], data, i + |first|, end);
    }
  }

  /** Where the parts of a PDU are found: (length, start) of its contents, request id, error-status,
      error-index and varbind list. */
  lemma PduRead(tag: byte, rid: int, a: int, b: int, ws: seq<WireBind>, data: seq<byte>, i: nat)
    returns (p: (nat, nat), r: (nat, nat), s: (nat, nat), x: (nat, nat), z: (nat, nat))
    requires EncPdu(tag, rid, a, b, ws).Some?
    requires Short(|EncPdu(tag, rid, a, b, ws).value|) && At(data, i, EncPdu(tag, rid, a, b, ws).value)
    ensures EncBinds(ws).Some? && Short(|EncBinds(ws).value|)
    ensures ByteAt(data, i) == Success(tag)
    ensures LenAt(data, i + 1) == Success(p)
    ensures LenAt(data, p.1 + 1) == Success(r) && Signed(Slice(data, r.1, r.0)) == rid
    ensures LenAt(data, r.1 + r.0 + 1) == Success(s) && Signed(Slice(data, s.1, s.0)) == a
    ensures LenAt(data, s.1 + s.0 + 1) == Success(x) && ByteAt(data, x.1 + x.0) == Success(0x30)
    ensures LenAt(data, x.1 + x.0 + 1) == Success(z) && z.0 == |EncBinds(ws).value| && At(data, z.1, EncBinds(ws).value)
  {
    hide ReadLen, EncLen, Slice, At, Tlv, LengthOctets, EncBinds, IntContent, Signed;
    var binds := EncBinds(ws).value;
    var requestId, status, index, list := EncInt(rid).value, EncInt(a).value, EncInt(b).value, Tlv(0x30, binds).value;
    p := Field(tag, requestId + (status + (index + list)), data, i);
    AtSplit(data, p.1, requestId, status + (index + list));
    AtSplit(data, p.1 + |requestId|, status, index + list);
    AtSplit(data, p.1 + |requestId| + |status|, index, list);
    LengthOctetsMonotone(|requestId|, p.0);
    LengthOctetsMonotone(|status|, p.0);
    LengthOctetsMonotone(|index|, p.0);
    LengthOctetsMonotone(|list|, p.0);
    r := Field(2, IntContent(rid), data, p.1);
    s := Field(2, IntContent(a), data, p.1 + |requestId|);
    x := Field(2, IntContent(b), data, p.1 + |requestId| + |status|);
    z := Field(0x30, binds, data, p.1 + |requestId| + |status| + |index|);
    IntegerRoundTrip(rid);
    IntegerRoundTrip(a);
  }

  /** What the parser makes of any well-formed message: refused when its kind is none of GET, GETNEXT, response and
      GETBULK, or the community or the request id is another's, the agent's error when the status field is not zero,
      and otherwise every identifier and value in order. */
  lemma MessageRoundTrip(version: int, community: seq<byte>, tag: byte, rid: int, a: int, b: int, ws: seq<WireBind>,
                         wantRid: Option<int>, wantCommunity: Option<seq<byte>>)
    requires EncMessage(version, community, tag, rid, a, b, ws).Some?
    requires Short(|EncMessage(version, community, tag, rid, a, b, ws).value|)
    requires forall k :: 0 <= k < |ws| ==> Readable(ws[k].oid)
    ensures
      ParseVarbinds(EncMessage(version, community, tag, rid, a, b, ws).value, wantRid, wantCommunity) ==
      if tag !in {0xA0, 0xA1, 0xA2, 0xA5} then Failure(BadReply)
      else if wantCommunity.Some? && wantCommunity.value != community then Failure(BadReply)
      else if wantRid.Some? && wantRid.value != rid then Failure(BadReply)
      else if a != 0 then Failure(AgentError(a))
      else Success(Decoded(ws))
  {
    hide ReadLen, EncLen, Slice, At, Tlv, LengthOctets, EncBinds, EncPdu, IntContent, Signed, Decoded, ReadBinds;
    var data := EncMessage(version, community, tag, rid, a, b, ws).value;
    var ver, com, pdu := EncInt(version).value, Tlv(0x04, community).value, EncPdu(tag, rid, a, b, ws).value;
    AtWhole(data);
    var m := Field(0x30, ver + (com + pdu), data, 0);
    AtSplit(data, m.1, ver, com + pdu);
    AtSplit(data, m.1 + |ver|, com, pdu);
    LengthOctetsMonotone(|ver|, m.0);
    LengthOctetsMonotone(|com|, m.0);
    LengthOctetsMonotone(|pdu|, m.0);
    var v := Field(2, IntContent(version), data, m.1);
    var c := Field(4, community, data, m.1 + |ver|);
    var p, r, s, x, z := PduRead(tag, rid, a, b, ws, data, m.1 + |ver| + |com|);
    BindsRead(ws, data, z.1);
  }

  lemma AtWhole(data: seq<byte>)
    ensures At(data, 0, data)
  {
  }

  // ---- Values as an agent encodes them ----

  datatype AgentValue = AInteger(n: int) | AUnsigned(count: nat, tag: byte) | AOid(arcs: seq<nat>) | ANull | ANoObject
                      | ANoInstance | AEndOfMib | AString(raw: seq<byte>) | AOther(tag: byte, raw: seq<byte>)

  predicate Encodable(v: AgentValue) {
    match v
    case AUnsigned(_, tag) => tag in {0x41, 0x42, 0x43, 0x46}
    case AOid(arcs) => OidContent(arcs).Some? && arcs[1] < 40
    case AOther(tag, _) => tag !in {0x02, 0x05, 0x06, 0x41, 0x42, 0x43, 0x46, 0x80, 0x81, 0x82}
    case _ => true
  }

  function ToWire(oid: string, v: AgentValue): WireBind
    requires Encodable(v)
  {
    match v
    case AInteger(n) => WireBind(oid, 0x02, IntContent(n))
    case AUnsigned(n, tag) => WireBind(oid, tag, IntContent(n))
    case AOid(arcs) => WireBind(oid, 0x06, OidContent(arcs).value)
    case ANull => WireBind(oid, 0x05, [])
    case ANoObject => WireBind(oid, 0x80, [])
    case ANoInstance => WireBind(oid, 0x81, [])
    case AEndOfMib => WireBind(oid, 0x82, [])
    case AString(raw) => WireBind(oid, 0x04, raw)
    case AOther(tag, raw) => WireBind(oid, tag, raw)
  }

  function Meaning(v: AgentValue): Value {
    match v
    case AInteger(n) => Int(n)
    case AUnsigned(n, _) => Int(n)
    case AOid(arcs) => Text(Dotted(arcs))
    case ANull => Null
    case ANoObject => Null
    case ANoInstance => Null
    case AEndOfMib => Null
    case AString(raw) => Octets(raw)
    case AOther(_, raw) => Octets(raw)
  }

  /** Every value an agent can send is understood as what it is, and as octets where its tag means nothing here. */
  lemma ValueRoundTrip(oid: string, v: AgentValue)
    requires Encodable(v)
    ensures DecodeValue(ToWire(oid, v).tag, ToWire(oid, v).raw) == Meaning(v)
  {
    hide IntContent, Signed, Unsigned, OidContent, DecOid, Dotted;
    match v {
      case AInteger(n) => IntegerRoundTrip(n);
      case AUnsigned(n, _) => UnsignedRoundTrip(n);
      case AOid(arcs) => OidRoundTripIff(arcs);
      case _ =>
    }
  }

  /** Read without a sign, the contents of a natural number are that number. */
  lemma UnsignedRoundTrip(n: nat)
    ensures Unsigned(IntContent(n)) == n
  {
    hide IntContent, Pow256;
    IntegerRoundTrip(n);
    SignedIsTwosComplement(IntContent(n));
    NotNegative(IntContent(n));
  }

  lemma NotNegative(b: seq<byte>)
    requires b != [] && Signed(b) >= 0
    ensures b[0] < 128
  {
    SignedIsTwosComplement(b);
  }

  // ---- One exchange ----

  /** What one socket sees: datagrams in arrival order, then an ICMP refusal or silence. */
  datatype Attempt = Attempt(datagrams: seq<seq<byte>>, refused: bool)

  datatype SendError = Closed | Silent | Agent(status: int) | NotEncodable

  /** The first datagram that is not dropped decides. */
  function FirstReply(datagrams: seq<seq<byte>>, rid: int, community: seq<byte>): Option<Result<seq<Varbind>, SendError>> {
    if datagrams == [] then None
    else match ParseVarbinds(datagrams[0], Some(rid), Some(community))
      case Success(vbs) => Some(Success(vbs))
      case Failure(AgentError(status)) => Some(Failure(Agent(status)))
      case Failure(BadReply) => FirstReply(datagrams[1..], rid, community)
  }

  function Exchange(attempts: seq<Attempt>, rid: int, community: seq<byte>): Result<seq<Varbind>, SendError> {
    if attempts == [] then Failure(Silent)
    else match FirstReply(attempts[0].datagrams, rid, community)
      case Some(r) => r
      case None => if attempts[0].refused then Failure(Closed) else Exchange(attempts[1..], rid, community)
  }

  /** Forged, truncated and foreign datagrams ahead of the genuine reply do not change the outcome. */
  lemma {:induction false} JunkIsIgnored(junk: seq<seq<byte>>, reply: seq<byte>, after: seq<seq<byte>>,
                                         rid: int, community: seq<byte>)
    requires forall k :: 0 <= k < |junk| ==> ParseVarbinds(junk[k], Some(rid), Some(community)) == Failure(BadReply)
    requires ParseVarbinds(reply, Some(rid), Some(community)) != Failure(BadReply)
    ensures FirstReply(junk + [reply] + after, rid, community) == FirstReply([reply], rid, community)
    ensures FirstReply([reply], rid, community) ==
      match ParseVarbinds(reply, Some(rid), Some(community))
      case Success(vbs) => Some(Success(vbs))
      case Failure(fault) => Some(Failure(Agent(fault.status)))
  {
    hide ParseVarbinds;
    var all := junk + [reply] + after;
    if junk != [] {
      JunkIsIgnored(junk[1..], reply, after, rid, community);
      assert all[1..] == junk[1..] + [reply] + after && all[0] == junk[0];
    } else {
      assert all[0] == reply;
    }
  }

  ghost predicate OnlyJunk(datagrams: seq<seq<byte>>, rid: int, community: seq<byte>) {
    forall k :: 0 <= k < |datagrams| ==> ParseVarbinds(datagrams[k], Some(rid), Some(community)) == Failure(BadReply)
  }

  lemma {:induction false} FirstReplyOfJunk(datagrams: seq<seq<byte>>, rid: int, community: seq<byte>)
    ensures OnlyJunk(datagrams, rid, community) <==> FirstReply(datagrams, rid, community) == None
  {
    hide ParseVarbinds;
    if datagrams != [] {
      FirstReplyOfJunk(datagrams[1..], rid, community);
      assert datagrams == [datagrams[0]] + datagrams[1..];
    }
  }

  /** Attempts that bring nothing but dropped datagrams, and no refusal. */
  ghost predicate Unanswered(attempts: seq<Attempt>, rid: int, community: seq<byte>) {
    forall k :: 0 <= k < |attempts| ==> !attempts[k].refused && OnlyJunk(attempts[k].datagrams, rid, community)
  }

  /** The first attempt that brings a datagram to go by, or a refusal, decides; if there is none, the agent is
      silent. */
  lemma {:induction false} ExchangeDecides(before: seq<Attempt>, attempt: Attempt, after: seq<Attempt>, rid: int,
                                           community: seq<byte>)
    requires Unanswered(before, rid, community)
    ensures Exchange(before, rid, community) == Failure(Silent)
    ensures !OnlyJunk(attempt.datagrams, rid, community) ==>
      Some(Exchange(before + [attempt] + after, rid, community)) == FirstReply(attempt.datagrams, rid, community)
    ensures OnlyJunk(attempt.datagrams, rid, community) && attempt.refused ==>
      Exchange(before + [attempt] + after, rid, community) == Failure(Closed)
  {
    hide FirstReply, OnlyJunk;
    var all := before + [attempt] + after;
    if before == [] {
      FirstReplyOfJunk(attempt.datagrams, rid, community);
      assert all[0] == attempt;
    } else {
      FirstReplyOfJunk(before[0].datagrams, rid, community);
      ExchangeDecides(before[1..], attempt, after, rid, community);
      assert all[0] == before[0] && all[1..] == before[1..] + [attempt] + after;
    }
  }

  function NullBinds(oids: seq<string>): (ws: seq<WireBind>)
    ensures |ws| == |oids| && forall k :: 0 <= k < |oids| ==> ws[k] == WireBind(oids[k], 0x05, [])
  {
    if oids == [] then [] else [WireBind(oids[0], 0x05, [])] + NullBinds(oids[1..])
  }

  /** `_pdu` reads back as the identifiers asked for, in order and with null values, and passes its own
      identity check: with error-status field 0, for GET and GETBULK alike. */
  lemma RequestRoundTrip(community: seq<byte>, tag: byte, rid: int, b: int, oids: seq<string>)
    requires tag in {0xA0, 0xA5}
    requires EncMessage(1, community, tag, rid, 0, b, NullBinds(oids)).Some?
    requires Short(|EncMessage(1, community, tag, rid, 0, b, NullBinds(oids)).value|)
    requires forall k :: 0 <= k < |oids| ==> Readable(oids[k])
    ensures
      var r := ParseVarbinds(EncMessage(1, community, tag, rid, 0, b, NullBinds(oids)).value, Some(rid), Some(community));
      && r.Success? && |r.value| == |oids|
      && forall k :: 0 <= k < |oids| ==> r.value[k] == (Canonical(oids[k]), Null)
  {
    hide EncMessage, ParseVarbinds, Readable, Short, Canonical;
    var ws := NullBinds(oids);
    MessageRoundTrip(1, community, tag, rid, 0, b, ws, Some(rid), Some(community));
    forall k | 0 <= k < |oids| ensures DecodedBind(ws[k]) == (Canonical(oids[k]), Null) {
      assert ws[k] == WireBind(oids[k], 0x05, []);
    }
  }
}

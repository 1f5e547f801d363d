/** SNMP messages as X.690 and RFC 3416 section 3 lay them out: a reader that checks every tag, written apart from
    the builder, and what the builder's messages are to it. */
module SnmpRequest {
  import opened Wrappers
  import opened Decimal
  import opened Ber
  import opened SnmpMessage

  // ---- A reader that checks every tag ----

  datatype Element = Element(tag: byte, body: seq<byte>, rest: seq<byte>)

  /** The element at the front of some octets, and what follows it. */
  function FirstElement(data: seq<byte>): Option<Element> {
    var (n, j) :- ReadLen(data, 1);
    if j + n > |data| then None else Some(Element(data[0], data[j..j + n], data[j + n..]))
  }

  function Expect(data: seq<byte>, tag: byte): Option<Element> {
    var e :- FirstElement(data);
    if e.tag == tag then Some(e) else None
  }

  /** INTEGER: tag 2 and the shortest octets. */
  function ExpectInt(data: seq<byte>): Option<(int, seq<byte>)> {
    var e :- Expect(data, 0x02);
    if e.body == [] || Redundant(e.body) then None else Some((Signed(e.body), e.rest))
  }

  datatype Bind = Bind(arcs: seq<nat>, tag: byte, value: seq<byte>)

  datatype Message = Message(version: int, community: seq<byte>, tag: byte, rid: int, a: int, b: int, binds: seq<Bind>)

  /** SEQUENCE of an OBJECT IDENTIFIER and a value. */
  function ExpectBind(data: seq<byte>): Option<(Bind, seq<byte>)> {
    var e :- Expect(data, 0x30);
    var name :- Expect(e.body, 0x06);
    var value :- FirstElement(name.rest);
    if value.rest != [] then None else Some((Bind(DecOidArcs(name.body), value.tag, value.body), e.rest))
  }

  lemma RestIsShorter(data: seq<byte>)
    ensures ExpectBind(data).Some? ==> |ExpectBind(data).value.1| < |data|
  {
  }

  function ExpectBinds(data: seq<byte>): Option<seq<Bind>>
    decreases |data|
  {
    if data == [] then Some([]) else
    var (first, rest) :- ExpectBind(data);
    RestIsShorter(data);
    var others :- ExpectBinds(rest);
    Some([first] + others)
  }

  /** The body of a PDU: request id, two further integers and the varbind list, and nothing else. */
  function ReadPdu(version: int, community: seq<byte>, pdu: Element): Option<Message> {
    if pdu.rest != [] then None else
    var (rid, r0) :- ExpectInt(pdu.body);
    var (a, r1) :- ExpectInt(r0);
    var (b, r2) :- ExpectInt(r1);
    var list :- Expect(r2, 0x30);
    if list.rest != [] then None else
    var binds :- ExpectBinds(list.body);
    Some(Message(version, community, pdu.tag, rid, a, b, binds))
  }

  /** SEQUENCE of version INTEGER, community OCTET STRING and a PDU, and nothing behind it. */
  function ReadMessage(data: seq<byte>): Option<Message> {
    var whole :- Expect(data, 0x30);
    if whole.rest != [] then None else
    var (version, r0) :- ExpectInt(whole.body);
    var community :- Expect(r0, 0x04);
    var pdu :- FirstElement(community.rest);
    ReadPdu(version, community.body, pdu)
  }

  // ---- What the builder's messages are to that reader ----

  lemma ElementRead(tag: byte, body: seq<byte>, tail: seq<byte>)
    requires Tlv(tag, body).Some? && Short(|Tlv(tag, body).value|)
    ensures FirstElement(Tlv(tag, body).value + tail) == Some(Element(tag, body, tail))
  {
    hide ReadLen, Short, EncLen, Tlv;
    var e := Tlv(tag, body).value;
    var data := e + tail;
    assert At(data, 0, e) by { assert data[0..0 + |e|] == e; }
    TlvShort(tag, body);
    TlvRead(tag, body, data, 0);
    var j := |e| - |body|;
    assert data[j..j + |body|] == body && data[|e|..] == tail;
  }

  lemma IntRead(v: int, tail: seq<byte>)
    requires EncInt(v).Some? && Short(|EncInt(v).value|)
    ensures ExpectInt(EncInt(v).value + tail) == Some((v, tail))
  {
    hide FirstElement, Short, Tlv, IntContent, Signed;
    ElementRead(0x02, IntContent(v), tail);
    IntegerRoundTrip(v);
  }

  function BindOf(w: WireBind): Bind {
    Bind(if Arcs(w.oid).Some? then Arcs(w.oid).value else [], w.tag, w.raw)
  }

  function BindsOf(ws: seq<WireBind>): seq<Bind> { if ws == [] then [] else [BindOf(ws[0])] + BindsOf(ws[1..]) }

  lemma BindExpected(w: WireBind, tail: seq<byte>)
    requires EncBind(w).Some? && Short(|EncBind(w).value|) && Readable(w.oid)
    ensures ExpectBind(EncBind(w).value + tail) == Some((BindOf(w), tail))
  {
    hide FirstElement, Short, Tlv, Arcs, DecOidArcs, OidContent;
    var arcs := Arcs(w.oid).value;
    var name, value := EncOid(w.oid).value, Tlv(w.tag, w.raw).value;
    TlvShort(0x30, name + value);
    ElementRead(0x30, name + value, tail);
    ShortPiece(|name|, |name + value|);
    ShortPiece(|value|, |name + value|);
    ElementRead(0x06, OidContent(arcs).value, value);
    ElementRead(w.tag, w.raw, []);
    assert value + [] == value;
    ArcsRead(arcs);
  }

  lemma ShortPiece(m: nat, n: nat)
    requires m <= n && Short(n)
    ensures Short(m)
  {
    LengthOctetsMonotone(m, n);
  }

  lemma FirstOctet(x: nat, y: nat)
    requires y < 40
    ensures (x * 40 + y) / 40 == x && (x * 40 + y) % 40 == y
  {
  }

  lemma ArcsRead(arcs: seq<nat>)
    requires OidContent(arcs).Some? && arcs[1] < 40
    ensures DecOidArcs(OidContent(arcs).value) == arcs
  {
    hide DecArcs, EncArcs;
    DecodeArcs(arcs[2..]);
    var b := OidContent(arcs).value;
    assert b[1..] == EncArcs(arcs[2..]) && b[0] == arcs[0] * 40 + arcs[1];
    FirstOctet(arcs[0], arcs[1]);
    assert arcs == [arcs[0], arcs[1]] + arcs[2..];
  }

  lemma {:induction false} BindsExpected(ws: seq<WireBind>)
    requires EncBinds(ws).Some? && Short(|EncBinds(ws).value|) && forall k :: 0 <= k < |ws| ==> Readable(ws[k].oid)
    ensures ExpectBinds(EncBinds(ws).value) == Some(BindsOf(ws))
  {
    hide EncBind, ExpectBind, Short, Readable, BindOf;
    if ws != [] {
      var first, rest := EncBind(ws[0]).value, EncBinds(ws[1..]).value;
      ShortPiece(|first|, |first + rest|);
      ShortPiece(|rest|, |first + rest|);
      BindExpected(ws[0], rest);
      RestIsShorter(first + rest);
      BindsExpected(ws[1..]);
    }
  }

  lemma PduExpected(version: int, community: seq<byte>, tag: byte, rid: int, a: int, b: int, ws: seq<WireBind>)
    requires EncPdu(tag, rid, a, b, ws).Some? && Short(|EncPdu(tag, rid, a, b, ws).value|)
    requires forall k :: 0 <= k < |ws| ==> Readable(ws[k].oid)
    ensures
      var pdu := FirstElement(EncPdu(tag, rid, a, b, ws).value);
      pdu.Some? && ReadPdu(version, community, pdu.value) == Some(Message(version, community, tag, rid, a, b, BindsOf(ws)))
  {
    hide FirstElement, ExpectInt, ExpectBinds, Short, Tlv, EncInt, EncBinds, Readable, BindsOf;
    var binds := EncBinds(ws).value;
    var requestId, status, index, list := EncInt(rid).value, EncInt(a).value, EncInt(b).value, Tlv(0x30, binds).value;
    var body := requestId + (status + (index + list));
    ElementRead(tag, body, []);
    assert Tlv(tag, body).value + [] == Tlv(tag, body).value;
    TlvShort(tag, body);
    ShortPiece(|requestId|, |body|);
    ShortPiece(|status|, |body|);
    ShortPiece(|index|, |body|);
    ShortPiece(|list|, |body|);
    IntRead(rid, status + (index + list));
    IntRead(a, index + list);
    IntRead(b, list);
    ElementRead(0x30, binds, []);
    assert list + [] == list;
    TlvShort(0x30, binds);
    BindsExpected(ws);
  }

  /** Every message that is built, and short enough for its lengths to be read, has the standard's layout: each tag
      in its place, the numbers in their shortest form, and version, community, kind, request id, both fields and
      varbinds as asked for. */
  lemma BuiltAsStandard(version: int, community: seq<byte>, tag: byte, rid: int, a: int, b: int, ws: seq<WireBind>)
    requires EncMessage(version, community, tag, rid, a, b, ws).Some?
    requires Short(|EncMessage(version, community, tag, rid, a, b, ws).value|)
    requires forall k :: 0 <= k < |ws| ==> Readable(ws[k].oid)
    ensures ReadMessage(EncMessage(version, community, tag, rid, a, b, ws).value) ==
      Some(Message(version, community, tag, rid, a, b, BindsOf(ws)))
  {
    hide FirstElement, ExpectInt, ReadPdu, Short, Tlv, EncInt, EncPdu, Readable, BindsOf;
    var ver, com, pdu := EncInt(version).value, Tlv(0x04, community).value, EncPdu(tag, rid, a, b, ws).value;
    var body := ver + (com + pdu);
    ElementRead(0x30, body, []);
    assert Tlv(0x30, body).value + [] == Tlv(0x30, body).value;
    TlvShort(0x30, body);
    ShortPiece(|ver|, |body|);
    ShortPiece(|com|, |body|);
    ShortPiece(|pdu|, |body|);
    IntRead(version, com + pdu);
    ElementRead(0x04, community, pdu);
    PduExpected(version, community, tag, rid, a, b, ws);
  }

  // ---- Requests for one identifier ----

  const RID_LIMIT: int := 0x8000_0000

  function NextRid(rid: int): (next: int)
    ensures 0 <= next < RID_LIMIT
  {
    (rid + 1) % RID_LIMIT
  }

  function Request(community: seq<byte>, rid: int, cur: string): Option<seq<byte>> {
    EncMessage(1, community, 0xA5, rid, 0, 20, NullBinds([cur]))
  }

  /** GETBULK as RFC 3416 section 4.2.3 has it, for the twenty successors of one identifier. */
  predicate GetBulk(msg: seq<byte>, community: seq<byte>, rid: int, arcs: seq<nat>) {
    ReadMessage(msg) == Some(Message(1, community, 0xA5, rid, 0, 20, [Bind(arcs, 0x05, [])]))
  }

  lemma RequestIsGetBulk(community: seq<byte>, rid: int, text: string)
    requires Request(community, rid, text).Some? && Short(|Request(community, rid, text).value|) && Readable(text)
    ensures GetBulk(Request(community, rid, text).value, community, rid, Arcs(text).value)
  {
    hide EncMessage, ReadMessage, Short, Readable, Arcs;
    var ws := NullBinds([text]);
    BuiltAsStandard(1, community, 0xA5, rid, 0, 20, ws);
    assert ws == [WireBind(text, 0x05, [])] && ws[1..] == [];
    ReadableArcs(text);
    assert BindsOf([]) == [];
    assert BindsOf(ws) == [Bind(Arcs(text).value, 0x05, [])];
  }

  lemma ReadableArcs(text: string)
    requires Readable(text)
    ensures Arcs(text).Some?
  {
  }

  /** A message asks for one identifier only, and under one id. */
  lemma OneQuestion(msg: seq<byte>, community: seq<byte>, rid: int, arcs: seq<nat>, community': seq<byte>, rid': int,
                    arcs': seq<nat>)
    requires GetBulk(msg, community, rid, arcs) && GetBulk(msg, community', rid', arcs')
    ensures community == community' && rid == rid' && arcs == arcs'
  {
    assert [Bind(arcs, 0x05, [])][0] == [Bind(arcs', 0x05, [])][0];
  }

  /** The request ids of 2^31 requests in a row are all different, and none is negative. */
  lemma {:induction false} IdsDiffer(rid: int, m: nat, n: nat)
    requires m < n < m + RID_LIMIT
    ensures NthRid(rid, m) != NthRid(rid, n)
  {
    NthRidIs(rid, m);
    NthRidIs(rid, n);
  }

  /** The request id after `n` more requests. */
  function NthRid(rid: int, n: nat): int { if n == 0 then rid else NextRid(NthRid(rid, n - 1)) }

  lemma {:induction false} NthRidIs(rid: int, n: nat)
    ensures (NthRid(rid, n) - rid - n) % RID_LIMIT == 0
    ensures n > 0 ==> 0 <= NthRid(rid, n) < RID_LIMIT
  {
    if n > 0 { NthRidIs(rid, n - 1); }
  }

  const BIND_OCTETS: seq<byte> := [0x30, 6, 0x06, 2, 43, 6, 0x05, 0]

  const PDU_OCTETS: seq<byte> := [0xA5, 19, 0x02, 1, 1, 0x02, 1, 0, 0x02, 1, 20, 0x30, 8] + BIND_OCTETS

  /** For instance, octet by octet: community `p`, id 1, the identifier 1.3.6. */
  lemma RequestOctets()
    ensures Request([0x70], 1, Dotted([1, 3, 6])) == Some([0x30, 27, 0x02, 1, 1, 0x04, 1, 0x70] + PDU_OCTETS)
  {
    hide Dotted, Arcs, Tlv, EncInt, EncPdu, EncOid;
    var text: string := Dotted([1, 3, 6]);
    BindOctets();
    PduOctets(WireBind(text, 0x05, []));
    SmallIntOctets(1);
    ShortTlv(0x04, [0x70]);
    assert [0x04, 1] + [0x70] == [0x04, 1, 0x70];
    var body: seq<byte> := [0x02, 1, 1] + ([0x04, 1, 0x70] + PDU_OCTETS);
    ShortTlv(0x30, body);
    assert [0x30, 27] + body == [0x30, 27, 0x02, 1, 1, 0x04, 1, 0x70] + PDU_OCTETS;
    assert NullBinds([text]) == [WireBind(text, 0x05, [])];
  }

  lemma BindOctets()
    ensures EncBinds([WireBind(Dotted([1, 3, 6]), 0x05, [])]) == Some(BIND_OCTETS)
  {
    hide Dotted, Arcs, Tlv, OidContent;
    var w: WireBind := WireBind(Dotted([1, 3, 6]), 0x05, []);
    ArcsOfDotted([1, 3, 6]);
    NameOctets();
    ShortTlv(0x06, [43, 6]);
    ShortTlv(0x05, []);
    var body: seq<byte> := ([0x06, 2] + [43, 6]) + ([0x05, 0] + []);
    ShortTlv(0x30, body);
    assert [0x30, 6] + body == BIND_OCTETS;
    OneBind(w);
  }

  lemma PduOctets(w: WireBind)
    requires EncBinds([w]) == Some(BIND_OCTETS)
    ensures EncPdu(0xA5, 1, 0, 20, [w]) == Some(PDU_OCTETS)
  {
    hide EncBinds, Tlv, EncInt;
    SmallIntOctets(1);
    SmallIntOctets(0);
    SmallIntOctets(20);
    ShortTlv(0x30, BIND_OCTETS);
    var body: seq<byte> := [0x02, 1, 1] + ([0x02, 1, 0] + ([0x02, 1, 20] + ([0x30, 8] + BIND_OCTETS)));
    ShortTlv(0xA5, body);
    assert [0xA5, 19] + body == PDU_OCTETS;
  }

  lemma ShortTlv(tag: byte, body: seq<byte>)
    requires |body| < 128
    ensures Tlv(tag, body) == Some([tag, |body|] + body)
  {
    assert [tag] + [|body|] == [tag, |body|];
  }

  lemma SmallIntOctets(v: int)
    requires 0 <= v < 128
    ensures EncInt(v) == Some([0x02, 1, v])
  {
    ShortTlv(0x02, [v]);
    assert IntContent(v) == [v] && [0x02, 1] + [v] == [0x02, 1, v];
  }

  lemma NameOctets()
    ensures OidContent([1, 3, 6]) == Some([43, 6])
  {
    var rest: seq<nat> := [6];
    assert ArcHigh(0) == [] && EncArc(6) == [6];
    assert rest[..0] == [] && rest[0] == 6;
    assert EncArcs([]) == [] && [] + [6] == [6];
    assert EncArcs(rest) == EncArcs(rest[..0]) + EncArc(6) == [6];
    var arcs: seq<nat> := [1, 3, 6];
    assert arcs[2..] == rest && arcs[0] * 40 + arcs[1] == 43 && [43] + [6] == [43, 6];
  }

  lemma OneBind(w: WireBind)
    requires EncBind(w).Some?
    ensures EncBinds([w]) == EncBind(w)
  {
    hide EncBind;
    assert [w][1..] == [] && EncBind(w).value + [] == EncBind(w).value;
  }

  /** More than a datagram holds. */
  const PIECE: nat := 0x1_0000

  predicate GoodOid(arcs: seq<nat>) { OidContent(arcs).Some? && arcs[1] < 40 }

  ghost predicate SmallOid(arcs: seq<nat>) { GoodOid(arcs) && |OidContent(arcs).value| < PIECE }

  // ---- Sizes ----

  lemma {:induction false} OctetsBound(n: nat, k: nat)
    requires n < Pow256(k)
    ensures |LengthOctets(n)| <= k
  {
    if n > 0 { OctetsBound(n / 256, k - 1); }
  }

  lemma SmallTlv(tag: byte, body: seq<byte>)
    requires |body| < 0x10_0000
    ensures Tlv(tag, body).Some? && |Tlv(tag, body).value| <= |body| + 5 && Short(|Tlv(tag, body).value|)
  {
    hide LengthOctets;
    assert Pow256(3) == 0x100_0000 by { assert Pow256(1) == 256 && Pow256(2) == 65536; }
    OctetsBound(|body|, 3);
    OctetsBound(|Tlv(tag, body).value|, 3);
  }

  lemma SmallInt(v: int)
    requires 0 <= v < RID_LIMIT
    ensures EncInt(v).Some? && |EncInt(v).value| <= 9
  {
    hide LengthOctets, Tlv, IntContent, FitsSigned;
    assert Pow256(4) == 0x1_0000_0000 by { assert Pow256(1) == 256 && Pow256(2) == 65536 && Pow256(3) == 0x100_0000; }
    FitsByBound(v, 4);
    ToBytesValue(v, 4);
    IntegerContentShortest(ToBytes(v, 4));
    SmallTlv(2, IntContent(v));
  }

  ghost predicate SmallBind(w: WireBind) {
    Arcs(w.oid).Some? && SmallOid(Arcs(w.oid).value) && |w.raw| < PIECE
  }

  lemma SmallBinds(w: WireBind)
    requires SmallBind(w)
    ensures EncBinds([w]).Some? && |EncBinds([w]).value| <= 2 * PIECE + 15
  {
    hide Tlv, Arcs, OidContent, Short;
    SmallTlv(6, OidContent(Arcs(w.oid).value).value);
    SmallTlv(w.tag, w.raw);
    SmallTlv(0x30, EncOid(w.oid).value + Tlv(w.tag, w.raw).value);
    assert [w][1..] == [] && EncBinds([]) == Some([]);
    assert EncBinds([w]) == Some(EncBind(w).value + []);
  }

  lemma SmallPdu(tag: byte, rid: int, a: int, b: int, w: WireBind)
    requires 0 <= rid < RID_LIMIT && 0 <= a < RID_LIMIT && 0 <= b < RID_LIMIT && SmallBind(w)
    ensures EncPdu(tag, rid, a, b, [w]).Some? && |EncPdu(tag, rid, a, b, [w]).value| <= 2 * PIECE + 60
  {
    hide Tlv, EncBinds, EncInt, Short;
    SmallBinds(w);
    SmallInt(rid);
    SmallInt(a);
    SmallInt(b);
    SmallTlv(0x30, EncBinds([w]).value);
    SmallTlv(tag, EncInt(rid).value + (EncInt(a).value + (EncInt(b).value + Tlv(0x30, EncBinds([w]).value).value)));
  }

  /** A message about one varbind of moderate size can be encoded. */
  lemma SmallMessage(community: seq<byte>, tag: byte, rid: int, a: int, b: int, w: WireBind)
    requires |community| < PIECE && 0 <= rid < RID_LIMIT && 0 <= a < RID_LIMIT && 0 <= b < RID_LIMIT && SmallBind(w)
    ensures EncMessage(1, community, tag, rid, a, b, [w]).Some?
    ensures Short(|EncMessage(1, community, tag, rid, a, b, [w]).value|)
  {
    hide Tlv, EncPdu, EncInt, Short, SmallBind;
    SmallPdu(tag, rid, a, b, w);
    SmallInt(1);
    SmallTlv(4, community);
    SmallTlv(0x30, EncInt(1).value + (Tlv(4, community).value + EncPdu(tag, rid, a, b, [w]).value));
  }

  lemma PieceIsShort(n: nat)
    requires n < PIECE
    ensures Short(n)
  {
    hide LengthOctets;
    assert Pow256(2) == PIECE by { assert Pow256(1) == 256; }
    OctetsBound(n, 2);
  }

  lemma GoodIsReadable(arcs: seq<nat>)
    requires GoodOid(arcs)
    ensures Readable(Dotted(arcs)) && Arcs(Dotted(arcs)) == Some(arcs)
  {
    hide Dotted, Arcs;
    ArcsOfDotted(arcs);
  }

  /** A request for an identifier that fits a datagram can be built. */
  lemma SmallRequest(community: seq<byte>, rid: int, arcs: seq<nat>)
    requires |community| < PIECE && 0 <= rid < RID_LIMIT && SmallOid(arcs)
    ensures Request(community, rid, Dotted(arcs)).Some? && Short(|Request(community, rid, Dotted(arcs)).value|)
    ensures Readable(Dotted(arcs)) && Arcs(Dotted(arcs)) == Some(arcs)
  {
    hide EncMessage, Short, Dotted, Arcs;
    ArcsOfDotted(arcs);
    var w := WireBind(Dotted(arcs), 0x05, []);
    SmallMessage(community, 0xA5, rid, 0, 20, w);
    assert NullBinds([Dotted(arcs)]) == [w];
  }
}

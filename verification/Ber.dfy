/** The BER encoders and decoders of core/snmp_collect.py, proved to be inverses of one another
    (ITU-T X.690 sections 8.1.3, 8.3 and 8.19).

    Python integers are unbounded, so shifts and masks are written as division and remainder.
    A decoder that runs off the end of its buffer (IndexError) answers None, and so does an
    encoder that cannot put a value into one octet (ValueError). */
module Ber {
  import opened Wrappers
  import opened Decimal

  type byte = x: int | 0 <= x < 256

  // ---- Unsigned and signed readings of a run of octets ----

  /** `int.from_bytes(b, "big", signed=False)` */
  function Unsigned(b: seq<byte>): nat {
    if b == [] then 0 else 256 * Unsigned(b[..|b| - 1]) + b[|b| - 1]
  }

  /** `int.from_bytes(b, "big", signed=True)`, with 0 for no octets at all (`_dec_int`). */
  function Signed(b: seq<byte>): int {
    if |b| == 0 then 0
    else if |b| == 1 then if b[0] < 128 then b[0] else b[0] - 256
    else 256 * Signed(b[..|b| - 1]) + b[|b| - 1]
  }

  function Pow256(n: nat): int { if n == 0 then 1 else 256 * Pow256(n - 1) }

  /** X.690 section 8.3.3: the two readings differ by the weight of the sign bit. */
  lemma {:induction false} SignedIsTwosComplement(b: seq<byte>)
    requires b != []
    ensures Signed(b) == Unsigned(b) - (if b[0] >= 128 then Pow256(|b|) else 0)
    ensures Unsigned(b) < Pow256(|b|)
  {
    if |b| == 1 {
      assert Unsigned(b[..0]) == 0;
      assert Pow256(1) == 256;
    } else {
      SignedIsTwosComplement(b[..|b| - 1]);
    }
  }

  // ---- Lengths (8.1.3) ----

  /** The octets of a long-form length, most significant first. */
  function LengthOctets(n: nat): seq<byte> {
    if n == 0 then [] else LengthOctets(n / 256) + [n % 256]
  }

  /** `_enc_len`: the first octet of the long form is `0x80 | count`, which is the bare count once
      the count itself reaches 128 and does not fit one octet from 256 on. */
  function EncLen(n: nat): Option<seq<byte>> {
    if n < 128 then Some([n])
    else
      var octets := LengthOctets(n);
      if |octets| < 128 then Some([128 + |octets|] + octets)
      else if |octets| < 256 then Some([|octets|] + octets)
      else None
  }

  method EncodeLength(n: nat) returns (r: Option<seq<byte>>)
    ensures r == EncLen(n)
  {
    if n < 128 {
      return Some([n]);
    }
    var b: seq<byte>, rest: nat := [], n;
    while rest > 0
      invariant LengthOctets(n) == LengthOctets(rest) + b
    {
      b, rest := [rest % 256] + b, rest / 256;
    }
    assert LengthOctets(n) == b;
    if |b| >= 256 {
      return None;
    }
    r := Some([if |b| < 128 then 128 + |b| else |b|] + b);
  }

  /** `_read_len`: the length at index `i` and the index after it. */
  function ReadLen(buf: seq<byte>, i: nat): (r: Option<(nat, nat)>)
    ensures r.Some? ==> i < r.value.1 <= |buf|
  {
    if i >= |buf| then None
    else if buf[i] < 128 then Some((buf[i], i + 1))
    else
      var cnt := buf[i] - 128;
      if i + 1 + cnt > |buf| then None else Some((Unsigned(buf[i + 1..i + 1 + cnt]), i + 1 + cnt))
  }

  method ReadLength(buf: seq<byte>, i: nat) returns (r: Option<(nat, nat)>)
    ensures r == ReadLen(buf, i)
  {
    if i >= |buf| {
      return None;
    }
    var n, j: nat := buf[i], i + 1;
    if n < 128 {
      return Some((n, j));
    }
    var cnt, val: nat := n % 128, 0;
    while j < i + 1 + cnt
      invariant i + 1 <= j <= i + 1 + cnt && j <= |buf|
      invariant val == Unsigned(buf[i + 1..j])
    {
      if j >= |buf| {
        return None;
      }
      assert buf[i + 1..j + 1][..j - i - 1] == buf[i + 1..j];
      val, j := val * 256 + buf[j], j + 1;
    }
    r := Some((val, j));
  }

  /** A length whose long form needs at most 127 octets: everything a computer can hold. */
  predicate Short(n: nat) { |LengthOctets(n)| < 128 }

  lemma {:induction false} UnsignedOfLengthOctets(n: nat)
    ensures Unsigned(LengthOctets(n)) == n
  {
    if n > 0 {
      UnsignedOfLengthOctets(n / 256);
      assert LengthOctets(n)[..|LengthOctets(n)| - 1] == LengthOctets(n / 256);
    }
  }

  lemma {:induction false} LengthOctetsMonotone(m: nat, n: nat)
    requires m <= n
    ensures |LengthOctets(m)| <= |LengthOctets(n)|
  {
    if m > 0 {
      LengthOctetsMonotone(m / 256, n / 256);
    }
  }

  /** `t` sits in `buf` at index `i`, whatever comes before and after it. */
  predicate At(buf: seq<byte>, i: nat, t: seq<byte>) { i + |t| <= |buf| && buf[i..i + |t|] == t }

  lemma AtSplit(buf: seq<byte>, i: nat, a: seq<byte>, b: seq<byte>)
    ensures At(buf, i, a + b) <==> At(buf, i, a) && At(buf, i + |a|, b)
  {
    if i + |a| + |b| <= |buf| {
      assert buf[i..i + |a + b|] == buf[i..i + |a|] + buf[i + |a|..i + |a| + |b|];
      if At(buf, i, a + b) {
        assert buf[i..i + |a|] == (a + b)[..|a|] == a;
        assert buf[i + |a|..i + |a| + |b|] == (a + b)[|a|..] == b;
      }
    }
  }

  /** Section 8.1.3: a length is read back, in front of any trailing octets, exactly when its long
      form has fewer than 128 octets. */
  lemma LengthRoundTripIff(n: nat, buf: seq<byte>, i: nat)
    requires EncLen(n).Some? && At(buf, i, EncLen(n).value)
    ensures ReadLen(buf, i) == Some((n, i + |EncLen(n).value|)) <==> Short(n)
  {
    var e := EncLen(n).value;
    assert buf[i] == buf[i..i + |e|][0] == e[0];
    if n < 128 {
      assert LengthOctets(n / 256) == [];
    } else {
      var octets := LengthOctets(n);
      assert e[1..] == octets;
      assert buf[i + 1..i + 1 + |octets|] == buf[i..i + |e|][1..] == octets;
      UnsignedOfLengthOctets(n);
    }
  }

  // ---- Tag, length, value ----

  function Tlv(tag: byte, body: seq<byte>): Option<seq<byte>> {
    var len :- EncLen(|body|);
    Some([tag] + len + body)
  }

  /** Reading any TLV back: its tag, then its length, then exactly its body. */
  lemma TlvRead(tag: byte, body: seq<byte>, buf: seq<byte>, i: nat)
    requires Short(|body|)
    requires Tlv(tag, body).Some? && At(buf, i, Tlv(tag, body).value)
    ensures i < |buf| && buf[i] == tag
    ensures
      var j := i + |Tlv(tag, body).value| - |body|;
      ReadLen(buf, i + 1) == Some((|body|, j)) && At(buf, j, body) && i + 2 <= j
  {
    var len := EncLen(|body|).value;
    AtSplit(buf, i, [tag] + len, body);
    AtSplit(buf, i, [tag], len);
    assert buf[i] == buf[i..i + 1][0];
    LengthRoundTripIff(|body|, buf, i + 1);
  }

  lemma TlvShort(tag: byte, body: seq<byte>)
    requires Tlv(tag, body).Some? && Short(|Tlv(tag, body).value|)
    ensures Short(|body|)
  {
    LengthOctetsMonotone(|body|, |Tlv(tag, body).value|);
  }

  // ---- INTEGER (8.3) ----

  /** The shortest two's-complement octets of `v`. */
  function IntContent(v: int): (b: seq<byte>)
    ensures b != []
    decreases if v < 0 then -v else v
  {
    if -128 <= v < 128 then [v % 256] else IntContent(v / 256) + [v % 256]
  }

  /** Section 8.3.2: the first nine bits are neither all zeros nor all ones. */
  predicate Redundant(b: seq<byte>) {
    |b| > 1 && ((b[0] == 0 && b[1] < 128) || (b[0] == 255 && b[1] >= 128))
  }

  lemma {:induction false} IntegerRoundTrip(v: int)
    ensures Signed(IntContent(v)) == v
    ensures !Redundant(IntContent(v))
    decreases if v < 0 then -v else v
  {
    var b := IntContent(v);
    if !(-128 <= v < 128) {
      IntegerRoundTrip(v / 256);
      assert b[..|b| - 1] == IntContent(v / 256);
    }
  }

  /** Every run of octets that is not redundant is the content of the integer it denotes. */
  lemma {:induction false} IntegerContentUnique(b: seq<byte>)
    requires b != [] && !Redundant(b)
    ensures IntContent(Signed(b)) == b
    ensures -128 <= Signed(b) < 128 <==> |b| == 1
  {
    if |b| > 1 {
      var init, last := b[..|b| - 1], b[|b| - 1];
      var q := Signed(init);
      var v := Signed(b);
      assert v == 256 * q + last;
      assert b == init + [last] && init[0] == b[0];
      if |init| > 1 {
        assert init[1] == b[1];
      }
      IntegerContentUnique(init);
      assert v / 256 == q && v % 256 == last;
    }
  }

  /** ... and no other run of octets denoting it is shorter. */
  lemma {:induction false} IntegerContentShortest(b: seq<byte>)
    requires b != []
    ensures |IntContent(Signed(b))| <= |b|
  {
    if |b| > 1 {
      IntegerContentShortest(b[..|b| - 1]);
    }
  }

  function BitLength(m: nat): nat { if m == 0 then 0 else 1 + BitLength(m / 2) }

  /** `v.to_bytes(n, "big", signed=True)` when `v` fits in `n` octets. */
  function ToBytes(v: int, n: nat): (b: seq<byte>)
    requires n > 0
    ensures |b| == n
    decreases n
  {
    if n == 1 then [v % 256] else ToBytes(v / 256, n - 1) + [v % 256]
  }

  predicate FitsSigned(v: int, n: nat)
    requires n > 0
    decreases n
  {
    if n == 1 then -128 <= v < 128 else FitsSigned(v / 256, n - 1)
  }

  lemma {:induction false} ToBytesValue(v: int, n: nat)
    requires n > 0 && FitsSigned(v, n)
    ensures Signed(ToBytes(v, n)) == v
    decreases n
  {
    if n > 1 {
      ToBytesValue(v / 256, n - 1);
      assert ToBytes(v, n)[..n - 1] == ToBytes(v / 256, n - 1);
    }
  }

  lemma BitLengthShift(m: nat)
    ensures BitLength(m) == if m < 128 then BitLength(m) else 8 + BitLength(m / 256)
    ensures BitLength(m) < 8 ==> m < 128
  {
    var a := m / 2;
    var b := a / 2;
    var c := b / 2;
    var d := c / 2;
    var e := d / 2;
    var f := e / 2;
    var g := f / 2;
    var h := g / 2;
    assert h == m / 256;
    assert BitLength(a) == if a == 0 then 0 else 1 + BitLength(b);
    assert BitLength(c) == if c == 0 then 0 else 1 + BitLength(d);
    assert BitLength(e) == if e == 0 then 0 else 1 + BitLength(f);
    assert BitLength(g) == if g == 0 then 0 else 1 + BitLength(h);
  }

  /** `bit_length() // 8 + 1` octets always suffice, so `to_bytes` never overflows. */
  lemma {:induction false} BitLengthBounds(m: nat, n: nat)
    requires n > 0 && BitLength(m) < 8 * n
    ensures 2 * m < Pow256(n)
  {
    BitLengthShift(m);
    if n == 1 {
      assert Pow256(1) == 256 * Pow256(0);
    } else {
      if m < 128 {
        assert BitLength(m / 256) == 0;
      }
      BitLengthBounds(m / 256, n - 1);
      HalfPow256(n - 1);
    }
  }

  lemma HalfPow256(n: nat)
    requires n > 0
    ensures Pow256(n) % 2 == 0
  {
  }

  lemma {:induction false} FitsByBound(v: int, n: nat)
    requires n > 0 && -Pow256(n) <= 2 * v < Pow256(n)
    ensures FitsSigned(v, n)
    decreases n
  {
    if n == 1 {
      assert Pow256(1) == 256 * Pow256(0);
    } else {
      HalfPow256(n - 1);
      FitsByBound(v / 256, n - 1);
    }
  }

  lemma {:induction false} StripKeepsValue(b: seq<byte>)
    requires Redundant(b)
    ensures Signed(b[1..]) == Signed(b)
  {
    if |b| == 2 {
      assert Signed(b[..1]) == Signed([b[0]]);
    } else {
      StripKeepsValue(b[..|b| - 1]);
      assert b[1..][..|b| - 2] == b[..|b| - 1][1..];
    }
  }

  /** `_enc_int`: a conversion wide enough for any value, then redundant octets stripped one by one. */
  method EncodeInteger(v: int) returns (r: Option<seq<byte>>)
    ensures r == EncInt(v)
  {
    var m := if v < 0 then -v else v;
    var n := BitLength(m) / 8 + 1;
    BitLengthBounds(m, n);
    FitsByBound(v, n);
    ToBytesValue(v, n);
    var b := ToBytes(v, n);
    while |b| > 1 && ((b[0] == 0 && b[1] < 128) || (b[0] == 255 && b[1] >= 128))
      invariant b != [] && Signed(b) == v
      decreases |b|
    {
      StripKeepsValue(b);
      b := b[1..];
    }
    IntegerContentUnique(b);
    r := Tlv(2, b);
  }

  function EncInt(v: int): Option<seq<byte>> { Tlv(2, IntContent(v)) }

  // ---- OBJECT IDENTIFIER (8.19) ----

  /** All but the last octet of an arc: base 128, continuation bit set. */
  function ArcHigh(q: nat): seq<byte> {
    if q == 0 then [] else ArcHigh(q / 128) + [128 + q % 128]
  }

  function EncArc(p: nat): seq<byte> { ArcHigh(p / 128) + [p % 128] }

  function EncArcs(ps: seq<nat>): seq<byte> {
    if ps == [] then [] else EncArcs(ps[..|ps| - 1]) + EncArc(ps[|ps| - 1])
  }

  /** The content octets for a list of arcs: two arcs share the first octet. */
  function OidContent(parts: seq<nat>): Option<seq<byte>> {
    if |parts| < 2 || parts[0] * 40 + parts[1] > 255 then None
    else Some([parts[0] * 40 + parts[1]] + EncArcs(parts[2..]))
  }

  function EncOid(text: string): Option<seq<byte>> {
    var parts :- Arcs(text);
    var body :- OidContent(parts);
    Tlv(6, body)
  }

  /** `_enc_oid`, with its loop over the arcs and its inner loop over the septets of one arc. */
  method EncodeOid(text: string) returns (r: Option<seq<byte>>)
    ensures r == EncOid(text)
  {
    var arcs := Arcs(text);
    if arcs.None? || |arcs.value| < 2 || arcs.value[0] * 40 + arcs.value[1] > 255 {
      return None;
    }
    var parts := arcs.value;
    var first: byte := parts[0] * 40 + parts[1];
    var body: seq<byte> := [first];
    var rest := parts[2..];
    for k := 0 to |rest|
      invariant body == [first] + EncArcs(rest[..k])
    {
      var p := rest[k];
      var chunk: seq<byte> := [p % 128];
      var q := p / 128;
      while q > 0
        invariant EncArc(p) == ArcHigh(q) + chunk
      {
        chunk, q := [128 + q % 128] + chunk, q / 128;
      }
      assert rest[..k + 1][..k] == rest[..k];
      body := body + chunk;
    }
    assert rest[..|rest|] == rest;
    r := Tlv(6, body);
  }

  /** The state of the decoding loop after the octets `b`: arcs finished so far, and the accumulator. */
  function DecArcs(b: seq<byte>): (seq<nat>, nat) {
    if b == [] then ([], 0)
    else
      var (out, acc) := DecArcs(b[..|b| - 1]);
      var c := b[|b| - 1];
      var next := acc * 128 + c % 128;
      if c < 128 then (out + [next], 0) else (out, next)
  }

  function DecOidArcs(b: seq<byte>): seq<nat> {
    if b == [] then [] else [b[0] / 40, b[0] % 40] + DecArcs(b[1..]).0
  }

  function DecOid(b: seq<byte>): string { Dotted(DecOidArcs(b)) }

  method DecodeOid(b: seq<byte>) returns (text: string)
    ensures text == DecOid(b)
  {
    if b == [] {
      return "";
    }
    var out: seq<nat>, acc: nat := [b[0] / 40, b[0] % 40], 0;
    for k := 1 to |b|
      invariant out == [b[0] / 40, b[0] % 40] + DecArcs(b[1..k]).0 && acc == DecArcs(b[1..k]).1
    {
      assert b[1..k + 1][..k - 1] == b[1..k];
      acc := acc * 128 + b[k] % 128;
      if b[k] < 128 {
        out, acc := out + [acc], 0;
      }
    }
    assert b[1..|b|] == b[1..];
    text := Dotted(out);
  }

  lemma {:induction false} DecodeArcHigh(pre: seq<byte>, q: nat)
    requires DecArcs(pre).1 == 0
    ensures DecArcs(pre + ArcHigh(q)) == (DecArcs(pre).0, q)
  {
    if q == 0 {
      assert pre + [] == pre;
    } else {
      DecodeArcHigh(pre, q / 128);
      var b, last := pre + ArcHigh(q), 128 + q % 128;
      assert b[..|b| - 1] == pre + ArcHigh(q / 128) && b[|b| - 1] == last;
      DecodeHighOctet(b, DecArcs(pre).0, q);
    }
  }

  lemma DecodeHighOctet(b: seq<byte>, out: seq<nat>, q: nat)
    requires b != [] && b[|b| - 1] == 128 + q % 128 && DecArcs(b[..|b| - 1]) == (out, q / 128)
    ensures DecArcs(b) == (out, q)
  {
    assert (128 + q % 128) % 128 == q % 128;
  }

  lemma {:induction false} DecodeArcs(ps: seq<nat>)
    ensures DecArcs(EncArcs(ps)) == (ps, 0)
  {
    if ps != [] {
      var init, p := ps[..|ps| - 1], ps[|ps| - 1];
      DecodeArcs(init);
      DecodeArcHigh(EncArcs(init), p / 128);
      var b := EncArcs(ps);
      assert b == EncArcs(init) + (ArcHigh(p / 128) + [p % 128]);
      assert b[..|b| - 1] == EncArcs(init) + ArcHigh(p / 128) && b[|b| - 1] == p % 128;
      DecodeLastOctet(b, init, p);
      assert init + [p] == ps;
    }
  }

  lemma DecodeLastOctet(b: seq<byte>, out: seq<nat>, p: nat)
    requires b != [] && b[|b| - 1] == p % 128 && DecArcs(b[..|b| - 1]) == (out, p / 128)
    ensures DecArcs(b) == (out + [p], 0)
  {
    assert (p % 128) % 128 == p % 128;
  }

  /** Section 8.19.2: an arc never starts with the padding octet 0x80. */
  lemma {:induction false} ArcIsShortest(p: nat)
    ensures EncArc(p)[0] != 128
  {
    if p >= 128 {
      ArcHighStart(p / 128);
    }
  }

  lemma {:induction false} ArcHighStart(q: nat)
    requires q > 0
    ensures ArcHigh(q) != [] && ArcHigh(q)[0] != 128
  {
    if q >= 128 {
      ArcHighStart(q / 128);
    } else {
      assert ArcHigh(q / 128) == [];
    }
  }

  /** Whatever was encoded, decoding returns every arc from the third on and splits the shared octet
      with 40: the identifier comes back exactly when its second arc is below 40. */
  lemma OidRoundTripIff(arcs: seq<nat>)
    requires OidContent(arcs).Some?
    ensures DecOidArcs(OidContent(arcs).value)[2..] == arcs[2..]
    ensures DecOid(OidContent(arcs).value) == Dotted(arcs) <==> arcs[1] < 40
  {
    var body := OidContent(arcs).value;
    assert body[1..] == EncArcs(arcs[2..]);
    DecodeArcs(arcs[2..]);
    var back := DecOidArcs(body);
    assert back == [body[0] / 40, body[0] % 40] + arcs[2..];
    assert arcs == [arcs[0], arcs[1]] + arcs[2..];
    if arcs[1] < 40 {
      assert body[0] / 40 == arcs[0] && body[0] % 40 == arcs[1];
    } else {
      assert back[1] != arcs[1];
      ArcsOfDotted(back);
      ArcsOfDotted(arcs);
    }
  }

  /** X.690 section 8.19.4 allows 2.100, one octet 180; this decoder prints it as 4.20. */
  lemma JointIsoArcIsMisread()
    ensures OidContent([2, 100]) == Some([180]) && DecOid([180]) == Dotted([4, 20]) != Dotted([2, 100])
  {
    var arcs: seq<nat>, body: seq<byte> := [2, 100], [180];
    assert arcs[2..] == [] && EncArcs(arcs[2..]) == [];
    assert [2 * 40 + 100] + EncArcs(arcs[2..]) == body;
    assert body[1..] == [] && DecOidArcs(body) == [4, 20] + [] == [4, 20];
    OidRoundTripIff(arcs);
  }
}

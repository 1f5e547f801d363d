/** The GETBULK walk of core/snmp_collect.py, from the bytes on the wire up to the rows returned. */
module SnmpWalk {
  import opened Wrappers
  import opened Decimal
  import opened Ber
  import opened SnmpMessage
  import opened SnmpRequest

  /** The world outside a walk: what comes back on the sockets of round `k` for a request, and whether
      the time budget is spent at the start of round `k`. Nothing is assumed about either. */
  datatype Network = Network(wire: (nat, seq<byte>) -> seq<Attempt>, late: nat -> bool)

  function Reply(net: Network, round: nat, community: seq<byte>, rid: int, cur: string): Result<seq<Varbind>, SendError> {
    match Request(community, rid, cur)
    case Some(msg) => Exchange(net.wire(round, msg), rid, community)
    case None => Failure(NotEncodable)
  }

  /** The inner loop: rows taken over from one reply, and whether the walk ends there. */
  function Absorb(vbs: seq<Varbind>, base: string, maxRows: int, out: seq<Varbind>): (r: (seq<Varbind>, bool))
    ensures out <= r.0 && (vbs != [] && !r.1 ==> |out| < |r.0|)
    ensures |out| < maxRows ==> |r.0| <= maxRows
  {
    if vbs == [] then (out, false)
    else if !StartsWith(vbs[0].0, base + ".") || vbs[0].1 == Null then (out, true)
    else if |out| + 1 >= maxRows then (out + [vbs[0]], true)
    else Absorb(vbs[1..], base, maxRows, out + [vbs[0]])
  }

  /** The identifier asked for next: that of the last row taken, or `base` before any. */
  function Cursor(base: string, out: seq<Varbind>): string { if out == [] then base else out[|out| - 1].0 }

  /** The outer loop from round `round` on, with `out` already collected. */
  function Walked(net: Network, community: seq<byte>, rid: int, base: string, maxRows: int, out: seq<Varbind>, round: nat)
    : seq<Varbind>
    decreases maxRows - |out|
  {
    if |out| >= maxRows || net.late(round) then out
    else match Reply(net, round, community, NextRid(rid), Cursor(base, out))
      case Failure(_) => out
      case Success(vbs) =>
        if vbs == [] then out
        else
          var (out', stop) := Absorb(vbs, base, maxRows, out);
          if stop then out' else Walked(net, community, NextRid(rid), base, maxRows, out', round + 1)
  }

  /** A message asks by GETBULK for `base`, or for one of the rows collected. */
  ghost predicate AsksAlong(msg: seq<byte>, community: seq<byte>, rid: int, base: string, out: seq<Varbind>) {
    exists n :: 0 <= n <= |out| && AsksFor(msg, community, rid, Cursor(base, out[..n]))
  }

  /** A message of a size that exists, for an identifier that can be read back, is GETBULK for it. */
  ghost predicate AsksFor(msg: seq<byte>, community: seq<byte>, rid: int, text: string) {
    Short(|msg|) && Readable(text) ==> GetBulk(msg, community, rid, Arcs(text).value)
  }

  /** Message after message, under one request id after the other. */
  ghost predicate AllAsk(msgs: seq<seq<byte>>, community: seq<byte>, rid: int, base: string, out: seq<Varbind>) {
    forall k :: 0 <= k < |msgs| ==> AsksAlong(msgs[k], community, NthRid(rid, k + 1), base, out)
  }

  lemma AsksNow(msgs: seq<seq<byte>>, msg: seq<byte>, community: seq<byte>, start: int, rid: int, base: string, out: seq<Varbind>)
    requires AllAsk(msgs, community, start, base, out) && rid == NthRid(start, |msgs|)
    requires Request(community, NextRid(rid), Cursor(base, out)) == Some(msg)
    ensures AllAsk(msgs + [msg], community, start, base, out)
  {
    hide Request, GetBulk, Readable, Short, AsksAlong;
    var id := NextRid(rid);
    if Short(|msg|) && Readable(Cursor(base, out)) { RequestIsGetBulk(community, id, Cursor(base, out)); }
    assert AsksAlong(msg, community, id, base, out) by { AsksLast(msg, community, id, base, out); }
  }

  lemma AsksLast(msg: seq<byte>, community: seq<byte>, rid: int, base: string, out: seq<Varbind>)
    requires AsksFor(msg, community, rid, Cursor(base, out))
    ensures AsksAlong(msg, community, rid, base, out)
  {
    hide AsksFor;
    assert out[..|out|] == out;
  }

  lemma NothingAsked(community: seq<byte>, start: int, base: string)
    ensures AllAsk([], community, start, base, [])
  {
  }

  lemma AskedBefore(msgs: seq<seq<byte>>, community: seq<byte>, start: int, base: string, out: seq<Varbind>, out': seq<Varbind>)
    requires AllAsk(msgs, community, start, base, out) && out <= out'
    ensures AllAsk(msgs, community, start, base, out')
  {
    hide AsksFor, NthRid;
    forall k | 0 <= k < |msgs| ensures AsksAlong(msgs[k], community, NthRid(start, k + 1), base, out') {
      var n :| 0 <= n <= |out| && AsksFor(msgs[k], community, NthRid(start, k + 1), Cursor(base, out[..n]));
      assert out'[..n] == out[..n];
    }
  }

  class Session {
    var rid: int
    const community: seq<byte>
    /** The messages that walks have sent. */
    ghost var sent: seq<seq<byte>>

    constructor (community: seq<byte>, start: int)
      requires 1 <= start < 0x7FFF_FF00
      ensures this.community == community && rid == start && sent == []
    {
      this.community, rid, sent := community, start, [];
    }

    /** `_pdu`: the request id moves on even when an identifier cannot be encoded. */
    method Pdu(tag: byte, oids: seq<string>, a: int, b: int) returns (msg: Option<seq<byte>>, id: int)
      modifies this`rid
      ensures id == rid == NextRid(old(rid))
      ensures msg == EncMessage(1, community, tag, id, a, b, NullBinds(oids))
    {
      rid := (rid + 1) % RID_LIMIT;
      id := rid;
      msg := EncMessage(1, community, tag, id, a, b, NullBinds(oids));
    }

    /** `_send`: one attempt per retry; inside an attempt, BadReply datagrams are dropped one by one. */
    method Send(id: int, attempts: seq<Attempt>) returns (r: Result<seq<Varbind>, SendError>)
      ensures r == Exchange(attempts, id, community)
    {
      var k := 0;
      while k < |attempts|
        invariant k <= |attempts|
        invariant Exchange(attempts, id, community) == Exchange(attempts[k..], id, community)
      {
        var datagrams := attempts[k].datagrams;
        var d := 0;
        assert datagrams[0..] == datagrams;
        while d < |datagrams|
          invariant d <= |datagrams|
          invariant FirstReply(datagrams, id, community) == FirstReply(datagrams[d..], id, community)
        {
          var parsed := Parse(datagrams[d], Some(id), Some(community));
          match parsed {
            case Success(vbs) => return Success(vbs);
            case Failure(AgentError(status)) => return Failure(Agent(status));
            case Failure(BadReply) =>
          }
          d := d + 1;
        }
        if attempts[k].refused {
          return Failure(Closed);
        }
        k := k + 1;
      }
      r := Failure(Silent);
    }

    /** Each message sent is GETBULK for the base or for the last row found by then, under the next id. */
    method Walk(base: string, maxRows: int, net: Network) returns (out: seq<Varbind>)
      modifies this
      ensures out == Walked(net, community, old(rid), base, maxRows, [], 0)
      ensures old(sent) <= sent && AllAsk(sent[|old(sent)|..], community, old(rid), base, out)
    {
      hide Exchange, EncMessage, NullBinds, AllAsk, StartsWith;
      out := [];
      ghost var msgs: seq<seq<byte>> := [];
      NothingAsked(community, rid, base);
      var cur, round := base, 0;
      while |out| < maxRows
        invariant cur == Cursor(base, out)
        invariant Walked(net, community, old(rid), base, maxRows, [], 0) ==
                  Walked(net, community, rid, base, maxRows, out, round)
        invariant sent == old(sent) + msgs && rid == NthRid(old(rid), |msgs|) && AllAsk(msgs, community, old(rid), base, out)
        decreases maxRows - |out|
      {
        if net.late(round) {
          break;
        }
        var msg, id := Pdu(0xA5, [cur], 0, 20);
        if msg.None? {
          break;
        }
        AsksNow(msgs, msg.value, community, old(rid), NthRid(old(rid), |msgs|), base, out);
        assert old(sent) + msgs + [msg.value] == old(sent) + (msgs + [msg.value]);
        msgs, sent := msgs + [msg.value], sent + [msg.value];
        var reply := Send(id, net.wire(round, msg.value));
        if reply.Failure? || reply.value == [] {
          break;
        }
        var vbs, k := reply.value, 0;
        ghost var before := out;
        while k < |vbs|
          invariant k <= |vbs| && cur == Cursor(base, out) && |out| == |before| + k < maxRows
          invariant Absorb(vbs, base, maxRows, before) == Absorb(vbs[k..], base, maxRows, out)
          invariant sent == old(sent) + msgs && rid == id && AllAsk(msgs, community, old(rid), base, out)
        {
          if !StartsWith(vbs[k].0, base + ".") || vbs[k].1 == Null {
            return;
          }
          AskedBefore(msgs, community, old(rid), base, out, out + [vbs[k]]);
          out, cur := out + [vbs[k]], vbs[k].0;
          if |out| >= maxRows {
            return;
          }
          k := k + 1;
        }
        round := round + 1;
      }
    }
  }

  // ---- Against any agent whatever ----

  lemma {:induction false} AbsorbedRows(vbs: seq<Varbind>, base: string, maxRows: int, out: seq<Varbind>)
    requires forall k :: 0 <= k < |out| ==> StartsWith(out[k].0, base + ".") && out[k].1 != Null
    ensures forall k :: 0 <= k < |Absorb(vbs, base, maxRows, out).0| ==>
      StartsWith(Absorb(vbs, base, maxRows, out).0[k].0, base + ".") && Absorb(vbs, base, maxRows, out).0[k].1 != Null
  {
    if vbs != [] && StartsWith(vbs[0].0, base + ".") && vbs[0].1 != Null {
      AbsorbedRows(vbs[1..], base, maxRows, out + [vbs[0]]);
    }
  }

  /** Whatever arrives, forged or not: at most `maxRows` rows, every one of them printed under `base`. */
  lemma {:induction false} WalkIsBounded(net: Network, community: seq<byte>, rid: int, base: string, maxRows: int,
                                         out: seq<Varbind>, round: nat)
    requires |out| <= if maxRows < 0 then 0 else maxRows
    requires forall k :: 0 <= k < |out| ==> StartsWith(out[k].0, base + ".") && out[k].1 != Null
    ensures
      var rows := Walked(net, community, rid, base, maxRows, out, round);
      && |rows| <= (if maxRows < 0 then 0 else maxRows)
      && forall k :: 0 <= k < |rows| ==> StartsWith(rows[k].0, base + ".") && rows[k].1 != Null
    decreases maxRows - |out|
  {
    hide Exchange, Request;
    var reply := Reply(net, round, community, NextRid(rid), Cursor(base, out));
    if |out| < maxRows && reply.Success? && reply.value != [] {
      var (out', stop) := Absorb(reply.value, base, maxRows, out);
      AbsorbedRows(reply.value, base, maxRows, out);
      if !stop {
        WalkIsBounded(net, community, NextRid(rid), base, maxRows, out', round + 1);
      }
    }
  }

  /** What has been collected is never given up again, whatever happens next. */
  lemma {:induction false} NothingIsLost(net: Network, community: seq<byte>, rid: int, base: string, maxRows: int,
                                         out: seq<Varbind>, round: nat)
    ensures out <= Walked(net, community, rid, base, maxRows, out, round)
    decreases maxRows - |out|
  {
    hide Exchange, Request, Absorb;
    var reply := Reply(net, round, community, NextRid(rid), Cursor(base, out));
    if |out| < maxRows && reply.Success? && reply.value != [] {
      var (out', stop) := Absorb(reply.value, base, maxRows, out);
      if !stop {
        NothingIsLost(net, community, NextRid(rid), base, maxRows, out', round + 1);
      }
    }
  }

  /** Nothing is asked once the time is up: what would have come back in that round or later makes no difference. */
  lemma {:induction false} NothingAfterDeadline(net: Network, other: Network, community: seq<byte>, rid: int, base: string,
                                                maxRows: int, out: seq<Varbind>, round: nat, last: nat)
    requires round <= last && net.late(last) && other.late(last)
    requires forall k: nat, msg: seq<byte> :: k < last ==> net.wire(k, msg) == other.wire(k, msg)
    requires forall k: nat :: k < last ==> net.late(k) == other.late(k)
    ensures Walked(net, community, rid, base, maxRows, out, round) == Walked(other, community, rid, base, maxRows, out, round)
    decreases maxRows - |out|
  {
    hide Exchange, Request, Absorb;
    if round < last && |out| < maxRows {
      var reply := Reply(net, round, community, NextRid(rid), Cursor(base, out));
      if reply.Success? && reply.value != [] {
        var (out', stop) := Absorb(reply.value, base, maxRows, out);
        if !stop {
          NothingAfterDeadline(net, other, community, NextRid(rid), base, maxRows, out', round + 1, last);
        }
      }
    }
  }

  // ---- Against an agent that follows RFC 3416 section 4.2.3 ----

  datatype Row = Row(arcs: seq<nat>, value: AgentValue)

  /** Lexicographic order on object identifiers. */
  predicate Less(a: seq<nat>, b: seq<nat>) {
    b != [] && (a == [] || a[0] < b[0] || (a[0] == b[0] && Less(a[1..], b[1..])))
  }

  ghost predicate SortedTable(t: seq<Row>) {
    && (forall i, j :: 0 <= i < j < |t| ==> Less(t[i].arcs, t[j].arcs))
    && (forall i :: 0 <= i < |t| ==> GoodOid(t[i].arcs) && Encodable(t[i].value) && Meaning(t[i].value) != Null)
  }

  /** The index of the first row lexicographically after `arcs`, counting from `q`. */
  function After(t: seq<Row>, arcs: seq<nat>, q: nat): (p: nat)
    requires q <= |t|
    ensures q <= p <= |t|
    ensures forall k :: q <= k < p ==> !Less(arcs, t[k].arcs)
    ensures p < |t| ==> Less(arcs, t[p].arcs)
    decreases |t| - q
  {
    if q == |t| || Less(arcs, t[q].arcs) then q else After(t, arcs, q + 1)
  }

  /** A GETBULK answer: a non-empty run of successors, with endOfMibView once the table is exhausted. */
  ghost predicate BulkAnswer(t: seq<Row>, arcs: seq<nat>, ws: seq<WireBind>) {
    var p := After(t, arcs, 0);
    && |ws| > 0
    && (forall k :: 0 <= k < |ws| && p + k < |t| ==> ws[k] == ToWireRow(t[p + k]))
    && (forall k :: 0 <= k < |ws| && p + k >= |t| ==> ws[k].tag == 0x82 && Readable(ws[k].oid))
  }

  function ToWireRow(row: Row): WireBind {
    if Encodable(row.value) then ToWire(Dotted(row.arcs), row.value) else WireBind(Dotted(row.arcs), 0x05, [])
  }

  /** The genuine reply arrives within the retries, behind any number of datagrams that parse as someone
      else's or as garbage, and after attempts that brought only such datagrams. */
  ghost predicate Answered(attempts: seq<Attempt>, t: seq<Row>, arcs: seq<nat>, rid: int, community: seq<byte>) {
    exists n: nat, junk: seq<seq<byte>>, version: int, reply: seq<byte>, after: seq<seq<byte>>, ws: seq<WireBind> ::
      && 0 <= n < |attempts|
      && (forall k :: 0 <= k < n ==> !attempts[k].refused && OnlyJunk(attempts[k].datagrams, rid, community))
      && OnlyJunk(junk, rid, community)
      && attempts[n].datagrams == junk + [reply] + after
      && EncMessage(version, community, 0xA2, rid, 0, 0, ws) == Some(reply) && Short(|reply|)
      && BulkAnswer(t, arcs, ws)
  }

  /** What a walk asks about: the base and rows of the table. */
  ghost predicate Asked(t: seq<Row>, base: seq<nat>, arcs: seq<nat>) {
    arcs == base || exists k :: 0 <= k < |t| && t[k].arcs == arcs
  }

  /** If these octets ask for what follows `arcs`, they are answered. */
  ghost predicate ServesAt(net: Network, community: seq<byte>, t: seq<Row>, k: nat, msg: seq<byte>, rid: int, arcs: seq<nat>) {
    GetBulk(msg, community, rid, arcs) ==> Answered(net.wire(k, msg), t, arcs, rid, community)
  }

  /** An agent that serves `t`, seen through a network that never runs out of time: in every round, all octets
      that are a GETBULK request for `base` or one of the rows are answered. Community and identifiers fit a
      datagram. */
  ghost predicate Serves(net: Network, community: seq<byte>, t: seq<Row>, base: seq<nat>) {
    && (forall k: nat :: !net.late(k))
    && |community| < PIECE && SmallOid(base) && (forall k :: 0 <= k < |t| ==> SmallOid(t[k].arcs))
    && (forall k: nat, msg: seq<byte>, rid: int, arcs: seq<nat> :: 0 <= rid < RID_LIMIT && Asked(t, base, arcs) ==>
          ServesAt(net, community, t, k, msg, rid, arcs))
  }

  function Entry(row: Row): Varbind { (Dotted(row.arcs), Meaning(row.value)) }

  function Entries(t: seq<Row>, p: nat, n: nat): (vs: seq<Varbind>)
    requires p + n <= |t|
    ensures |vs| == n && forall k :: 0 <= k < n ==> vs[k] == Entry(t[p + k])
  {
    seq(n, k requires 0 <= k < n => Entry(t[p + k]))
  }

  /** The rows of the table strictly under `base`, in table order, from index `q` on. */
  function Subtree(t: seq<Row>, base: seq<nat>, q: nat): seq<Varbind>
    requires q <= |t|
    decreases |t| - q
  {
    if q == |t| then []
    else (if StrictlyUnder(t[q].arcs, base) then [Entry(t[q])] else []) + Subtree(t, base, q + 1)
  }

  lemma RetriesAreHarmless(attempts: seq<Attempt>, n: nat, rid: int, community: seq<byte>)
    requires n < |attempts|
    requires forall k :: 0 <= k < n ==> !attempts[k].refused && OnlyJunk(attempts[k].datagrams, rid, community)
    requires FirstReply(attempts[n].datagrams, rid, community).Some?
    ensures Exchange(attempts, rid, community) == FirstReply(attempts[n].datagrams, rid, community).value
  {
    hide FirstReply, OnlyJunk, Exchange;
    FirstReplyOfJunk(attempts[n].datagrams, rid, community);
    ExchangeDecides(attempts[..n], attempts[n], attempts[n + 1..], rid, community);
    assert attempts == attempts[..n] + [attempts[n]] + attempts[n + 1..];
  }

  /** What the walk sees of one answer. */
  ghost predicate GoodReply(t: seq<Row>, p: nat, vbs: seq<Varbind>) {
    |vbs| > 0 && forall k :: 0 <= k < |vbs| ==> BindMatches(t, p + k, vbs[k])
  }

  predicate BindMatches(t: seq<Row>, q: nat, vb: Varbind) {
    if q < |t| then vb == Entry(t[q]) else vb.1 == Null
  }

  lemma WireRowReadable(row: Row)
    requires GoodOid(row.arcs) && Encodable(row.value)
    ensures Readable(ToWireRow(row).oid) && DecodedBind(ToWireRow(row)) == Entry(row)
  {
    hide DecodeValue, Meaning, Dotted, Arcs;
    ArcsOfDotted(row.arcs);
    ValueRoundTrip(Dotted(row.arcs), row.value);
    assert ToWireRow(row).oid == Dotted(row.arcs);
  }

  lemma AnsweredReply(attempts: seq<Attempt>, t: seq<Row>, arcs: seq<nat>, rid: int, community: seq<byte>)
    returns (vbs: seq<Varbind>)
    requires SortedTable(t) && Answered(attempts, t, arcs, rid, community)
    ensures Exchange(attempts, rid, community) == Success(vbs)
    ensures GoodReply(t, After(t, arcs, 0), vbs)
  {
    hide ParseVarbinds, EncMessage, BulkAnswer, GoodReply, After, Short, Exchange, FirstReply, SortedTable, Decoded, Readable;
    var n: nat, junk: seq<seq<byte>>, version: int, reply: seq<byte>, after: seq<seq<byte>>, ws: seq<WireBind> :|
      && 0 <= n < |attempts|
      && (forall k :: 0 <= k < n ==> !attempts[k].refused && OnlyJunk(attempts[k].datagrams, rid, community))
      && OnlyJunk(junk, rid, community)
      && attempts[n].datagrams == junk + [reply] + after
      && EncMessage(version, community, 0xA2, rid, 0, 0, ws) == Some(reply) && Short(|reply|)
      && BulkAnswer(t, arcs, ws);
    vbs := Decoded(ws);
    DecodedAnswer(t, arcs, ws);
    MessageRoundTrip(version, community, 0xA2, rid, 0, 0, ws, Some(rid), Some(community));
    JunkIsIgnored(junk, reply, after, rid, community);
    FirstReplyAlone(reply, vbs, rid, community);
    RetriesAreHarmless(attempts, n, rid, community);
  }

  lemma DecodedAnswer(t: seq<Row>, arcs: seq<nat>, ws: seq<WireBind>)
    requires SortedTable(t) && BulkAnswer(t, arcs, ws)
    ensures forall k :: 0 <= k < |ws| ==> Readable(ws[k].oid)
    ensures GoodReply(t, After(t, arcs, 0), Decoded(ws))
  {
    hide DecodedBind, Readable, SortedTable, BindMatches, BulkAnswer, After;
    var p, vbs := After(t, arcs, 0), Decoded(ws);
    forall k | 0 <= k < |ws| ensures Readable(ws[k].oid) && BindMatches(t, p + k, vbs[k]) {
      AnswerBind(t, arcs, ws, k);
    }
    assert |vbs| > 0 by { AnswerNotEmpty(t, arcs, ws); }
  }

  lemma AnswerNotEmpty(t: seq<Row>, arcs: seq<nat>, ws: seq<WireBind>)
    requires BulkAnswer(t, arcs, ws)
    ensures |ws| > 0
  {
  }

  lemma AnswerBind(t: seq<Row>, arcs: seq<nat>, ws: seq<WireBind>, k: nat)
    requires SortedTable(t) && BulkAnswer(t, arcs, ws) && k < |ws|
    ensures Readable(ws[k].oid) && BindMatches(t, After(t, arcs, 0) + k, DecodedBind(ws[k]))
  {
    hide DecodedBind, ToWireRow, Entry, Less, Readable, Encodable, Meaning, GoodOid, After;
    var p := After(t, arcs, 0);
    if p + k < |t| {
      WireRowReadable(t[p + k]);
    } else {
      EndOfMibIsNull(ws[k]);
    }
  }

  lemma EndOfMibIsNull(w: WireBind)
    requires w.tag == 0x82
    ensures DecodedBind(w).1 == Null
  {
  }

  lemma FirstReplyAlone(reply: seq<byte>, vbs: seq<Varbind>, rid: int, community: seq<byte>)
    requires ParseVarbinds(reply, Some(rid), Some(community)) == Success(vbs)
    ensures FirstReply([reply], rid, community) == Some(Success(vbs))
  {
    hide ParseVarbinds;
  }

  // Facts about the order.

  lemma {:induction false} LessIrreflexive(a: seq<nat>)
    ensures !Less(a, a)
  {
    if a != [] { LessIrreflexive(a[1..]); }
  }

  lemma {:induction false} LessAsymmetric(a: seq<nat>, b: seq<nat>)
    requires Less(a, b)
    ensures !Less(b, a)
  {
    if a != [] && a[0] == b[0] { LessAsymmetric(a[1..], b[1..]); }
  }

  lemma {:induction false} UnderIsAfter(base: seq<nat>, x: seq<nat>)
    requires StrictlyUnder(x, base)
    ensures Less(base, x)
  {
    if base != [] {
      assert x[1..][..|base| - 1] == base[1..];
      UnderIsAfter(base[1..], x[1..]);
    }
  }

  /** A subtree is contiguous: what lies between its root and one of its members is a member. */
  lemma {:induction false} SubtreeIsContiguous(base: seq<nat>, x: seq<nat>, y: seq<nat>)
    requires Less(base, x) && Less(x, y) && StrictlyUnder(y, base)
    ensures StrictlyUnder(x, base)
  {
    if base != [] {
      assert y[1..][..|base| - 1] == base[1..];
      SubtreeIsContiguous(base[1..], x[1..], y[1..]);
      assert x == [x[0]] + x[1..] && base == [base[0]] + base[1..];
      assert x[..|base|] == [x[0]] + x[1..][..|base| - 1];
    }
  }

  lemma LeftForGood(base: seq<nat>, x: seq<nat>, y: seq<nat>)
    requires Less(base, x) && Less(x, y) && !StrictlyUnder(x, base)
    ensures !StrictlyUnder(y, base)
  {
    hide Less;
    if StrictlyUnder(y, base) {
      SubtreeIsContiguous(base, x, y);
    }
  }

  lemma AfterRow(t: seq<Row>, q: nat)
    requires SortedTable(t) && q < |t|
    ensures After(t, t[q].arcs, 0) == q + 1
  {
    hide GoodOid, Encodable, Meaning, Less;
    forall k | 0 <= k <= q ensures !Less(t[q].arcs, t[k].arcs) {
      if k < q {
        LessAsymmetric(t[k].arcs, t[q].arcs);
      } else {
        LessIrreflexive(t[q].arcs);
      }
    }
    AfterIs(t, t[q].arcs, q + 1);
  }

  lemma AfterIs(t: seq<Row>, arcs: seq<nat>, p: nat)
    requires p <= |t| && forall k :: 0 <= k < p ==> !Less(arcs, t[k].arcs)
    requires p < |t| ==> Less(arcs, t[p].arcs)
    ensures After(t, arcs, 0) == p
  {
    hide Less;
  }

  /** How many rows from `q` on lie under `base` without a gap. */
  function Run(t: seq<Row>, base: seq<nat>, q: nat): (n: nat)
    requires q <= |t|
    ensures q + n <= |t|
    ensures forall k :: q <= k < q + n ==> StrictlyUnder(t[k].arcs, base)
    ensures q + n < |t| ==> !StrictlyUnder(t[q + n].arcs, base)
    decreases |t| - q
  {
    if q < |t| && StrictlyUnder(t[q].arcs, base) then 1 + Run(t, base, q + 1) else 0
  }

  lemma {:induction false} NoRowsBefore(t: seq<Row>, base: seq<nat>, q: nat)
    requires q <= After(t, base, 0)
    ensures Subtree(t, base, q) == Subtree(t, base, After(t, base, 0))
    decreases |t| - q
  {
    if q < After(t, base, 0) {
      if StrictlyUnder(t[q].arcs, base) {
        UnderIsAfter(base, t[q].arcs);
      }
      NoRowsBefore(t, base, q + 1);
    }
  }

  lemma {:induction false} NoRowsBeyond(t: seq<Row>, base: seq<nat>, q: nat)
    requires q <= |t| && forall k :: q <= k < |t| ==> !StrictlyUnder(t[k].arcs, base)
    ensures Subtree(t, base, q) == []
    decreases |t| - q
  {
    if q < |t| { NoRowsBeyond(t, base, q + 1); }
  }

  lemma {:induction false} SubtreeIsRun(t: seq<Row>, base: seq<nat>, q: nat)
    requires SortedTable(t) && q <= |t| && (q < |t| ==> Less(base, t[q].arcs))
    ensures Subtree(t, base, q) == Entries(t, q, Run(t, base, q))
    decreases |t| - q
  {
    hide SortedTable, Entry, Less, StrictlyUnder;
    if q < |t| {
      if StrictlyUnder(t[q].arcs, base) {
        NextIsAfter(t, base, q);
        SubtreeIsRun(t, base, q + 1);
        assert Entries(t, q, 1 + Run(t, base, q + 1)) == [Entry(t[q])] + Entries(t, q + 1, Run(t, base, q + 1));
      } else {
        RunEnds(t, base, q);
        assert Entries(t, q, 0) == [];
      }
    }
  }

  lemma NextIsAfter(t: seq<Row>, base: seq<nat>, q: nat)
    requires SortedTable(t) && q < |t| && Less(base, t[q].arcs)
    ensures q + 1 < |t| ==> Less(base, t[q + 1].arcs)
  {
    hide Less, GoodOid, Encodable, Meaning;
    if q + 1 < |t| { LessTransitive(base, t[q].arcs, t[q + 1].arcs); }
  }

  lemma RunEnds(t: seq<Row>, base: seq<nat>, q: nat)
    requires SortedTable(t) && q < |t| && Less(base, t[q].arcs) && !StrictlyUnder(t[q].arcs, base)
    ensures Subtree(t, base, q) == []
  {
    hide Less, GoodOid, Encodable, Meaning, StrictlyUnder, Subtree;
    forall k | q < k < |t| ensures !StrictlyUnder(t[k].arcs, base) {
      LeftForGood(base, t[q].arcs, t[k].arcs);
    }
    NoRowsBeyond(t, base, q);
  }

  lemma {:induction false} LessTransitive(a: seq<nat>, b: seq<nat>, c: seq<nat>)
    requires Less(a, b) && Less(b, c)
    ensures Less(a, c)
  {
    if a != [] && a[0] == b[0] == c[0] { LessTransitive(a[1..], b[1..], c[1..]); }
  }

  /** One reply moves the walk along the run: it stops only at the row limit or at the end of the run. */
  lemma {:induction false} AbsorbRun(t: seq<Row>, base: seq<nat>, lo: nat, n: nat, vbs: seq<Varbind>, maxRows: int)
    returns (n': nat)
    requires SortedTable(t) && |base| > 0 && lo <= |t| && n <= Run(t, base, lo) && n < maxRows
    requires forall k :: 0 <= k < |vbs| ==> BindMatches(t, lo + n + k, vbs[k])
    ensures n <= n' <= Run(t, base, lo) && n' <= maxRows
    ensures Absorb(vbs, Dotted(base), maxRows, Entries(t, lo, n)).0 == Entries(t, lo, n')
    ensures Absorb(vbs, Dotted(base), maxRows, Entries(t, lo, n)).1 ==> n' == maxRows || n' == Run(t, base, lo)
    ensures !Absorb(vbs, Dotted(base), maxRows, Entries(t, lo, n)).1 ==> n' == n + |vbs| < maxRows
    decreases |vbs|
  {
    hide GoodOid, Encodable, Meaning, Less, Dotted;
    n' := n;
    if vbs != [] {
      var q := lo + n;
      assert BindMatches(t, lo + n + 0, vbs[0]);
      if q < |t| {
        PrefixIsSubtree(t[q].arcs, base);
        if StrictlyUnder(t[q].arcs, base) {
          assert Entries(t, lo, n) + [vbs[0]] == Entries(t, lo, n + 1);
          forall k | 0 <= k < |vbs| - 1 ensures BindMatches(t, lo + n + 1 + k, vbs[1..][k]) {
            assert BindMatches(t, lo + n + (k + 1), vbs[k + 1]);
          }
          if n + 1 < maxRows {
            n' := AbsorbRun(t, base, lo, n + 1, vbs[1..], maxRows);
          } else {
            n' := n + 1;
          }
        }
      }
    }
  }

  lemma NonEmptyBase(net: Network, community: seq<byte>, t: seq<Row>, base: seq<nat>)
    requires Serves(net, community, t, base)
    ensures |base| > 0 && GoodOid(base)
  {
  }

  lemma NeverLate(net: Network, community: seq<byte>, t: seq<Row>, base: seq<nat>, round: nat)
    requires Serves(net, community, t, base)
    ensures !net.late(round)
  {
  }

  lemma ServedReply(net: Network, community: seq<byte>, rid: int, t: seq<Row>, base: seq<nat>, q: nat, round: nat)
    returns (vbs: seq<Varbind>)
    requires SortedTable(t) && Serves(net, community, t, base) && q <= |t| && After(t, base, 0) <= q
    requires 0 <= rid < RID_LIMIT
    ensures
      var arcs := if q == After(t, base, 0) then base else t[q - 1].arcs;
      Reply(net, round, community, rid, Dotted(arcs)) == Success(vbs)
    ensures GoodReply(t, q, vbs)
  {
    hide Exchange, Request, Answered, Dotted, Arcs, GoodReply, Less, Encodable, Meaning, SmallOid, GetBulk, Short, Readable;
    var arcs := if q == After(t, base, 0) then base else t[q - 1].arcs;
    SmallRequest(community, rid, arcs);
    var msg := Request(community, rid, Dotted(arcs)).value;
    RequestIsGetBulk(community, rid, Dotted(arcs));
    assert Asked(t, base, arcs) && ServesAt(net, community, t, round, msg, rid, arcs);
    vbs := AnsweredReply(net.wire(round, msg), t, arcs, rid, community);
    if q != After(t, base, 0) {
      AfterRow(t, q - 1);
    }
  }

  lemma {:induction false} WalkFollowsRun(net: Network, community: seq<byte>, rid: int, t: seq<Row>, base: seq<nat>,
                                          maxRows: int, n: nat, round: nat)
    requires SortedTable(t) && Serves(net, community, t, base)
    requires n <= Run(t, base, After(t, base, 0)) && n <= maxRows
    ensures
      var lo := After(t, base, 0);
      var r := Run(t, base, lo);
      Walked(net, community, rid, Dotted(base), maxRows, Entries(t, lo, n), round) ==
      Entries(t, lo, if r < maxRows then r else maxRows)
    decreases maxRows - n
  {
    hide Reply, Serves, SortedTable, Absorb, Dotted, BindMatches, Less, StrictlyUnder;
    NonEmptyBase(net, community, t, base);
    if n < maxRows {
      var lo := After(t, base, 0);
      var out := Entries(t, lo, n);
      var vbs := ServedReply(net, community, NextRid(rid), t, base, lo + n, round);
      assert Cursor(Dotted(base), out) == if n == 0 then Dotted(base) else Dotted(t[lo + n - 1].arcs);
      assert !net.late(round) by { NeverLate(net, community, t, base, round); }
      var n' := AbsorbRun(t, base, lo, n, vbs, maxRows);
      if !Absorb(vbs, Dotted(base), maxRows, out).1 {
        WalkFollowsRun(net, community, NextRid(rid), t, base, maxRows, n', round + 1);
      }
    }
  }

  /** The batched walk of a served table is the filter of that table: the first `maxRows` rows strictly
      under `base`, in order, whatever the sizes of the individual answers. */
  lemma WalkIsSubtree(net: Network, community: seq<byte>, rid: int, t: seq<Row>, base: seq<nat>, maxRows: nat)
    requires SortedTable(t) && Serves(net, community, t, base)
    ensures
      var rows := Subtree(t, base, 0);
      Walked(net, community, rid, Dotted(base), maxRows, [], 0) == if |rows| <= maxRows then rows else rows[..maxRows]
  {
    hide Walked, Serves, Dotted;
    var lo := After(t, base, 0);
    NoRowsBefore(t, base, 0);
    SubtreeIsRun(t, base, lo);
    assert Entries(t, lo, 0) == [];
    WalkFollowsRun(net, community, rid, t, base, maxRows, 0, 0);
    var r := Run(t, base, lo);
    if maxRows < r {
      assert Entries(t, lo, r)[..maxRows] == Entries(t, lo, maxRows);
    }
  }

  // ---- When rounds may fail ----

  /** A datagram that is dropped or reports an error, or else is an answer from the table. */
  ghost predicate Honest(datagram: seq<byte>, t: seq<Row>, arcs: seq<nat>, rid: int, community: seq<byte>) {
    || ParseVarbinds(datagram, Some(rid), Some(community)).Failure?
    || exists version: int, ws: seq<WireBind> ::
         EncMessage(version, community, 0xA2, rid, 0, 0, ws) == Some(datagram) && Short(|datagram|) && BulkAnswer(t, arcs, ws)
  }

  ghost predicate AllHonest(datagrams: seq<seq<byte>>, t: seq<Row>, arcs: seq<nat>, rid: int, community: seq<byte>) {
    forall k :: 0 <= k < |datagrams| ==> Honest(datagrams[k], t, arcs, rid, community)
  }

  ghost predicate MayServeAt(net: Network, community: seq<byte>, t: seq<Row>, k: nat, msg: seq<byte>, rid: int, arcs: seq<nat>) {
    && (GetBulk(msg, community, rid, arcs) ==>
          forall a :: 0 <= a < |net.wire(k, msg)| ==> AllHonest(net.wire(k, msg)[a].datagrams, t, arcs, rid, community))
    && (|msg| >= PIECE ==> forall a :: 0 <= a < |net.wire(k, msg)| ==> net.wire(k, msg)[a].datagrams == [])
  }

  /** An agent that tells nothing but `t`, if it answers at all: any request may stay unanswered, be refused or
      earn an error status, and the time may run out in any round. What fits no datagram is not answered. */
  ghost predicate MayServe(net: Network, community: seq<byte>, t: seq<Row>, base: seq<nat>) {
    && GoodOid(base)
    && (forall k: nat, msg: seq<byte>, rid: int, arcs: seq<nat> :: 0 <= rid < RID_LIMIT && Asked(t, base, arcs) ==>
          MayServeAt(net, community, t, k, msg, rid, arcs))
  }

  ghost predicate FailsOrGood(t: seq<Row>, p: nat, r: Result<seq<Varbind>, SendError>) { r.Success? ==> GoodReply(t, p, r.value) }

  lemma HonestReply(datagram: seq<byte>, t: seq<Row>, arcs: seq<nat>, rid: int, community: seq<byte>)
    requires SortedTable(t) && Honest(datagram, t, arcs, rid, community)
    ensures var r := ParseVarbinds(datagram, Some(rid), Some(community)); r.Success? ==> GoodReply(t, After(t, arcs, 0), r.value)
  {
    hide ParseVarbinds, EncMessage, BulkAnswer, GoodReply, After, Short, SortedTable, Decoded, Readable;
    if ParseVarbinds(datagram, Some(rid), Some(community)).Success? {
      var version: int, ws: seq<WireBind> :|
        EncMessage(version, community, 0xA2, rid, 0, 0, ws) == Some(datagram) && Short(|datagram|) && BulkAnswer(t, arcs, ws);
      DecodedAnswer(t, arcs, ws);
      MessageRoundTrip(version, community, 0xA2, rid, 0, 0, ws, Some(rid), Some(community));
    }
  }

  lemma {:induction false} HonestFirst(datagrams: seq<seq<byte>>, t: seq<Row>, arcs: seq<nat>, rid: int, community: seq<byte>)
    requires SortedTable(t) && AllHonest(datagrams, t, arcs, rid, community)
    ensures
      var r := FirstReply(datagrams, rid, community);
      r.Some? ==> FailsOrGood(t, After(t, arcs, 0), r.value)
  {
    hide ParseVarbinds, Honest, GoodReply, SortedTable, After;
    if datagrams != [] {
      HonestReply(datagrams[0], t, arcs, rid, community);
      HonestFirst(datagrams[1..], t, arcs, rid, community);
    }
  }

  lemma {:induction false} HonestExchange(attempts: seq<Attempt>, t: seq<Row>, arcs: seq<nat>, rid: int, community: seq<byte>)
    requires SortedTable(t) && forall a :: 0 <= a < |attempts| ==> AllHonest(attempts[a].datagrams, t, arcs, rid, community)
    ensures FailsOrGood(t, After(t, arcs, 0), Exchange(attempts, rid, community))
  {
    hide FirstReply, AllHonest, GoodReply, SortedTable, After;
    if attempts != [] {
      HonestFirst(attempts[0].datagrams, t, arcs, rid, community);
      HonestExchange(attempts[1..], t, arcs, rid, community);
    }
  }

  lemma NothingIsHonest(t: seq<Row>, arcs: seq<nat>, rid: int, community: seq<byte>)
    ensures AllHonest([], t, arcs, rid, community)
  {
  }

  lemma MaybeReply(net: Network, community: seq<byte>, rid: int, t: seq<Row>, base: seq<nat>, q: nat, round: nat)
    requires SortedTable(t) && MayServe(net, community, t, base) && After(t, base, 0) <= q <= |t|
    requires 0 <= rid < RID_LIMIT
    ensures
      var arcs := if q == After(t, base, 0) then base else t[q - 1].arcs;
      FailsOrGood(t, q, Reply(net, round, community, rid, Dotted(arcs)))
  {
    hide Exchange, Request, AllHonest, Dotted, Arcs, GoodReply, Less, Encodable, Meaning, GetBulk, Short, Readable, GoodOid;
    var arcs := if q == After(t, base, 0) then base else t[q - 1].arcs;
    var msg := Request(community, rid, Dotted(arcs));
    if msg.Some? {
      assert Asked(t, base, arcs) && MayServeAt(net, community, t, round, msg.value, rid, arcs);
      if |msg.value| < PIECE {
        PieceIsShort(|msg.value|);
        GoodIsReadable(arcs);
        RequestIsGetBulk(community, rid, Dotted(arcs));
      } else {
        forall a | 0 <= a < |net.wire(round, msg.value)|
          ensures AllHonest(net.wire(round, msg.value)[a].datagrams, t, arcs, rid, community)
        {
          NothingIsHonest(t, arcs, rid, community);
        }
      }
      HonestExchange(net.wire(round, msg.value), t, arcs, rid, community);
    }
    if q != After(t, base, 0) {
      AfterRow(t, q - 1);
    }
  }

  lemma {:induction false} WalkStaysOnRun(net: Network, community: seq<byte>, rid: int, t: seq<Row>, base: seq<nat>,
                                          maxRows: int, n: nat, round: nat)
    returns (m: nat)
    requires SortedTable(t) && MayServe(net, community, t, base) && |base| > 0
    requires n <= Run(t, base, After(t, base, 0)) && n <= maxRows
    ensures n <= m <= Run(t, base, After(t, base, 0)) && m <= maxRows
    ensures
      var lo := After(t, base, 0);
      Walked(net, community, rid, Dotted(base), maxRows, Entries(t, lo, n), round) == Entries(t, lo, m)
    decreases maxRows - n
  {
    hide Reply, MayServe, SortedTable, Absorb, Dotted, BindMatches, Less, StrictlyUnder;
    var lo := After(t, base, 0);
    var out := Entries(t, lo, n);
    var reply := Reply(net, round, community, NextRid(rid), Cursor(Dotted(base), out));
    m := n;
    if n < maxRows && !net.late(round) && reply.Success? {
      MaybeReply(net, community, NextRid(rid), t, base, lo + n, round);
      assert Cursor(Dotted(base), out) == if n == 0 then Dotted(base) else Dotted(t[lo + n - 1].arcs);
      m := AbsorbRun(t, base, lo, n, reply.value, maxRows);
      if !Absorb(reply.value, Dotted(base), maxRows, out).1 {
        m := WalkStaysOnRun(net, community, NextRid(rid), t, base, maxRows, m, round + 1);
      }
    }
  }

  /** Partial results are right as far as they go: whichever rounds fail, and whenever the time runs out, the
      walk is a beginning of the rows strictly under `base`. */
  lemma WalkIsPrefix(net: Network, community: seq<byte>, rid: int, t: seq<Row>, base: seq<nat>, maxRows: nat)
    requires SortedTable(t) && MayServe(net, community, t, base)
    ensures
      var rows := Walked(net, community, rid, Dotted(base), maxRows, [], 0);
      rows <= Subtree(t, base, 0) && |rows| <= maxRows
  {
    hide Walked, Dotted, Less, Meaning, Encodable;
    var lo := After(t, base, 0);
    NoRowsBefore(t, base, 0);
    SubtreeIsRun(t, base, lo);
    assert Entries(t, lo, 0) == [];
    var m := WalkStaysOnRun(net, community, rid, t, base, maxRows, 0, 0);
  }
}

/** An agent that answers GETBULK as the walk expects, so that the walk theorem speaks of something: every
    sorted table of moderate size has one. */
module SnmpAgent {
  import opened Wrappers
  import opened Decimal
  import opened Ber
  import opened SnmpMessage
  import opened SnmpRequest
  import opened SnmpWalk

  /** One row per answer, or endOfMibView behind the last row. */
  function Batch(t: seq<Row>, arcs: seq<nat>): seq<WireBind> {
    var p := After(t, arcs, 0);
    if p < |t| then [ToWireRow(t[p])] else [WireBind(Dotted(arcs), 0x82, [])]
  }

  function ReplyTo(community: seq<byte>, t: seq<Row>, rid: int, arcs: seq<nat>): Option<seq<byte>> {
    EncMessage(1, community, 0xA2, rid, 0, 0, Batch(t, arcs))
  }

  /** The agent sees only the octets, reads them by the standard, and answers a GETBULK for one identifier. */
  function Answer(community: seq<byte>, t: seq<Row>, msg: seq<byte>): seq<Attempt> {
    match ReadMessage(msg)
    case None => []
    case Some(m) =>
      if |m.binds| == 1 && 0 <= m.rid < RID_LIMIT && GetBulk(msg, community, m.rid, m.binds[0].arcs) then
        var reply := ReplyTo(community, t, m.rid, m.binds[0].arcs);
        if reply.Some? then [Attempt([reply.value], false)] else []
      else []
  }

  ghost predicate Moderate(community: seq<byte>, t: seq<Row>, base: seq<nat>) {
    && |community| < PIECE && SmallOid(base)
    && forall k :: 0 <= k < |t| ==> SmallOid(t[k].arcs) && |ToWireRow(t[k]).raw| < PIECE
  }

  // ---- The agent ----

  lemma BatchAnswers(t: seq<Row>, arcs: seq<nat>)
    requires SmallOid(arcs)
    ensures BulkAnswer(t, arcs, Batch(t, arcs))
  {
    hide Dotted, Arcs, After, ToWireRow;
    ArcsOfDotted(arcs);
  }

  lemma BatchSmall(community: seq<byte>, t: seq<Row>, base: seq<nat>, arcs: seq<nat>)
    requires SortedTable(t) && Moderate(community, t, base) && SmallOid(arcs)
    ensures |Batch(t, arcs)| == 1 && SmallBind(Batch(t, arcs)[0])
  {
    hide Dotted, Arcs, After, SmallOid, Less;
    ArcsOfDotted(arcs);
    var p := After(t, arcs, 0);
    if p < |t| {
      ArcsOfDotted(t[p].arcs);
      assert ToWireRow(t[p]).oid == Dotted(t[p].arcs);
    }
  }

  lemma AnswersAt(community: seq<byte>, t: seq<Row>, base: seq<nat>, msg: seq<byte>, rid: int, arcs: seq<nat>)
    requires SortedTable(t) && Moderate(community, t, base) && 0 <= rid < RID_LIMIT && Asked(t, base, arcs)
    requires GetBulk(msg, community, rid, arcs)
    ensures Answered(Answer(community, t, msg), t, arcs, rid, community)
  {
    hide Short, Dotted, SmallOid, SortedTable, EncMessage, BulkAnswer, Batch, ParseVarbinds, ReadMessage, SmallBind;
    var m := ReadMessage(msg).value;
    assert m.binds == [Bind(arcs, 0x05, [])] && m.rid == rid;
    assert m.binds[0] == Bind(arcs, 0x05, []);
    BatchAnswers(t, arcs);
    BatchSmall(community, t, base, arcs);
    var ws := Batch(t, arcs);
    assert ws == [ws[0]];
    SmallMessage(community, 0xA2, rid, 0, 0, ws[0]);
    var reply := ReplyTo(community, t, rid, arcs).value;
    FirstAttempt(Answer(community, t, msg), t, arcs, rid, community, reply, ws);
  }

  lemma FirstAttempt(attempts: seq<Attempt>, t: seq<Row>, arcs: seq<nat>, rid: int, community: seq<byte>,
                     reply: seq<byte>, ws: seq<WireBind>)
    requires attempts == [Attempt([reply], false)]
    requires EncMessage(1, community, 0xA2, rid, 0, 0, ws) == Some(reply) && Short(|reply|) && BulkAnswer(t, arcs, ws)
    ensures Answered(attempts, t, arcs, rid, community)
  {
    hide EncMessage, Short, BulkAnswer, ParseVarbinds;
    var n: nat, junk: seq<seq<byte>>, version: int, after: seq<seq<byte>> := 0, [], 1, [];
    assert attempts[n].datagrams == junk + [reply] + after;
    assert OnlyJunk(junk, rid, community);
  }

  /** Every sorted table of moderate size is served by some agent. */
  lemma EveryTableIsServed(community: seq<byte>, t: seq<Row>, base: seq<nat>) returns (net: Network)
    requires SortedTable(t) && Moderate(community, t, base)
    ensures Serves(net, community, t, base)
  {
    hide Answered, Answer, Asked, SortedTable, GetBulk, SmallOid;
    net := Network((k: nat, msg: seq<byte>) => Answer(community, t, msg), k => false);
    forall k: nat, msg: seq<byte>, rid: int, arcs: seq<nat> | 0 <= rid < RID_LIMIT && Asked(t, base, arcs)
      ensures ServesAt(net, community, t, k, msg, rid, arcs)
    {
      if GetBulk(msg, community, rid, arcs) {
        AnswersAt(community, t, base, msg, rid, arcs);
      }
    }
  }

  /** For instance: two rows, of which a walk of 1.3.6 finds one. */
  lemma ServedWalk(community: seq<byte>, rid: int) returns (net: Network, t: seq<Row>)
    requires |community| < PIECE
    ensures |t| == 2 && SortedTable(t) && Serves(net, community, t, [1, 3, 6])
    ensures Walked(net, community, rid, Dotted([1, 3, 6]), 64, [], 0) == [(Dotted([1, 3, 6, 1]), Int(5))]
  {
    var base: seq<nat>, x: seq<nat>, y: seq<nat> := [1, 3, 6], [1, 3, 6, 1], [1, 3, 7];
    t := [Row(x, AInteger(5)), Row(y, AInteger(0))];
    FewArcs([6]);
    FewArcs([6, 1]);
    FewArcs([7]);
    assert base[2..] == [6] && x[2..] == [6, 1] && y[2..] == [7];
    assert x[1..] == [3, 6, 1] && y[1..] == [3, 7] && x[1..][1..] == [6, 1] && y[1..][1..] == [7];
    assert Less(x, y);
    assert |IntContent(5)| == |IntContent(0)| == 1;
    net := EveryTableIsServed(community, t, base);
    WalkIsSubtree(net, community, rid, t, base, 64);
    assert StrictlyUnder(x, base) && !StrictlyUnder(y, base);
    assert Subtree(t, base, 2) == [] && Subtree(t, base, 1) == [] && Subtree(t, base, 0) == [Entry(t[0])] + [];
  }

  lemma {:induction false} FewArcs(arcs: seq<nat>)
    requires forall k :: 0 <= k < |arcs| ==> arcs[k] < 128
    ensures |EncArcs(arcs)| == |arcs|
  {
    if arcs != [] {
      FewArcs(arcs[..|arcs| - 1]);
      assert ArcHigh(arcs[|arcs| - 1] / 128) == [];
    }
  }
}

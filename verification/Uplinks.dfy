/** The last part of `uplink_ports` in core/facility.py: what is known of a port-channel is passed on to its
    members, and the other way round, in one pass over the channels. */
module Uplinks {
  /** (switch id, port name in lower case) */
  type Port = (int, string)

  datatype Channel = Channel(port: Port, members: set<Port>)

  function Absorb(up: set<Port>, c: Channel): set<Port> {
    if c.port in up then up + c.members else if c.members * up != {} then up + {c.port} else up
  }

  function Pass(channels: seq<Channel>, up: set<Port>): set<Port> {
    if channels == [] then up else Absorb(Pass(channels[..|channels| - 1], up), channels[|channels| - 1])
  }

  method Propagate(channels: seq<Channel>, known: set<Port>) returns (up: set<Port>)
    ensures up == Pass(channels, known)
  {
    up := known;
    for k := 0 to |channels|
      invariant up == Pass(channels[..k], known)
    {
      assert channels[..k + 1][..k] == channels[..k];
      var c := channels[k];
      if c.port in up {
        up := up + c.members;
      } else if c.members * up != {} {
        up := up + {c.port};
      }
    }
    assert channels[..|channels|] == channels;
  }

  /** No port belongs to two channels, and no channel is a member of one. */
  ghost predicate Separate(channels: seq<Channel>) {
    && (forall i, j :: 0 <= i < j < |channels| ==>
          channels[i].port != channels[j].port && channels[i].members !! channels[j].members)
    && (forall i, j :: 0 <= i < |channels| && 0 <= j < |channels| ==> channels[i].port !in channels[j].members)
  }

  /** What the channel itself adds, judged from what was known at the start. */
  predicate Adds(c: Channel, up: set<Port>, p: Port) {
    if c.port in up then p in c.members else c.members * up != {} && p == c.port
  }

  /** Whatever the order of the channels, the pass adds the members of known channels and the channels of
      known members, and nothing else. */
  lemma {:induction false} PassAddsExactly(channels: seq<Channel>, up: set<Port>, p: Port)
    requires Separate(channels)
    ensures p in Pass(channels, up) <==> p in up || exists i :: 0 <= i < |channels| && Adds(channels[i], up, p)
  {
    if channels != [] {
      var n := |channels| - 1;
      var front, c := channels[..n], channels[n];
      PassAddsExactly(front, up, p);
      Untouched(front, up, c);
      assert Adds(c, Pass(front, up), p) <==> Adds(c, up, p);
      assert forall i :: 0 <= i < n ==> front[i] == channels[i];
      if i :| 0 <= i < n && Adds(front[i], up, p) {
        assert Adds(channels[i], up, p);
      }
      if i :| 0 <= i < |channels| && Adds(channels[i], up, p) && i != n {
        assert Adds(front[i], up, p);
      }
    }
  }

  /** Other channels leave a channel's own ports as they were. */
  lemma Untouched(front: seq<Channel>, up: set<Port>, c: Channel)
    requires Separate(front + [c])
    ensures c.port in Pass(front, up) <==> c.port in up
    ensures c.members * Pass(front, up) == c.members * up
  {
    assert (front + [c])[|front|] == c;
    assert forall i :: 0 <= i < |front| ==> (front + [c])[i] == front[i];
    forall q | q in c.members + {c.port} ensures q in Pass(front, up) <==> q in up {
      OnlyOwn(front, up, c, q);
    }
  }

  lemma {:induction false} OnlyOwn(front: seq<Channel>, up: set<Port>, c: Channel, q: Port)
    requires q in c.members + {c.port}
    requires forall i :: 0 <= i < |front| ==> q != front[i].port && q !in front[i].members
    ensures q in Pass(front, up) <==> q in up
  {
    if front != [] { OnlyOwn(front[..|front| - 1], up, c, q); }
  }

  /** A channel and its members are uplinks together or not at all. */
  ghost predicate Together(c: Channel, up: set<Port>) {
    (c.port in up || c.members * up != {}) ==> c.port in up && c.members <= up
  }

  lemma After(channels: seq<Channel>, up: set<Port>, i: nat)
    requires Separate(channels) && i < |channels|
    ensures var c, after := channels[i], Pass(channels, up);
      && (c.port in after <==> c.port in up || c.members * up != {})
      && (c.members <= after <==> c.port in up || c.members <= up)
      && (c.members * after != {} <==> (c.port in up && c.members != {}) || c.members * up != {})
  {
    hide Pass;
    var c := channels[i];
    forall q ensures q in Pass(channels, up) <==> q in up || exists k :: 0 <= k < |channels| && Adds(channels[k], up, q) {
      PassAddsExactly(channels, up, q);
    }
    forall q | q in c.members + {c.port}
      ensures (exists k :: 0 <= k < |channels| && Adds(channels[k], up, q)) <==> Adds(c, up, q)
    {
      forall k | 0 <= k < |channels| && k != i ensures !Adds(channels[k], up, q) {
        assert channels[k].members !! c.members && channels[k].port != c.port;
      }
    }
  }

  /** One pass brings every channel and its members together exactly when each channel was known itself, or
      none of its members was, or all were: a single known member marks the channel but not its fellows. */
  lemma OnePassIff(channels: seq<Channel>, up: set<Port>)
    requires Separate(channels)
    ensures (forall i :: 0 <= i < |channels| ==> Together(channels[i], Pass(channels, up))) <==>
      forall i :: 0 <= i < |channels| ==>
        channels[i].port in up || channels[i].members * up == {} || channels[i].members <= up
  {
    hide Pass, Separate;
    forall i | 0 <= i < |channels|
      ensures Together(channels[i], Pass(channels, up)) <==>
        channels[i].port in up || channels[i].members * up == {} || channels[i].members <= up
    {
      After(channels, up, i);
    }
  }

  /** A second pass would always do. */
  lemma TwoPassesSuffice(channels: seq<Channel>, up: set<Port>)
    requires Separate(channels)
    ensures forall i :: 0 <= i < |channels| ==> Together(channels[i], Pass(channels, Pass(channels, up)))
  {
    hide Pass, Separate;
    forall i | 0 <= i < |channels| ensures Together(channels[i], Pass(channels, Pass(channels, up))) {
      After(channels, up, i);
      After(channels, Pass(channels, up), i);
    }
  }

  /** For instance: with one of two members known, the channel becomes known and the other member does not. */
  lemma OneMemberKnown()
    ensures
      var po, a, b := (1, "po1"), (1, "a"), (1, "b");
      var after := Pass([Channel(po, {a, b})], {a});
      po in after && b !in after && !Together(Channel(po, {a, b}), after)
  {
    var po, a, b := (1, "po1"), (1, "a"), (1, "b");
    var channels := [Channel(po, {a, b})];
    assert "po1" != "a" && "b" != "a" && "b" != "po1" by {
      assert |"po1"| == 3 && "b"[0] != "a"[0];
    }
    assert channels[..0] == [] && Pass([], {a}) == {a};
    assert a in {a, b} * {a};
    assert Pass(channels, {a}) == {a} + {po};
  }
}

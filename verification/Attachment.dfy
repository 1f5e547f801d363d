/** `_choose_attachment` of core/facility.py: which of the switch ports that have seen a MAC address is
    the one the device is plugged into. */
module Attachment {
  import opened Wrappers
  import opened Text
  import Decimal

  /** One observation of the MAC: (switch_id, switch_name, port). */
  datatype Seen = Seen(switchId: int, switchName: string, port: string)

  type PortKey = (int, string)

  /** MAC counts per port, port-channel members and known uplink ports; port names in lower case. */
  datatype Context = Context(counts: map<PortKey, nat>, members: map<PortKey, seq<string>>, uplinks: set<PortKey>)

  datatype Choice = Choice(index: nat, port: string, direct: bool, via: seq<string>)

  const LOGICAL_PREFIXES: seq<string> :=
    ["po", "port-channel", "vl", "vlan", "lo", "loopback", "tu", "tunnel", "ae", "bundle", "irb"]

  const EDGE_MAC_MAX: nat := 4

  const UNKNOWN_COUNT: nat := 9999

  predicate IsPhysicalPort(port: string) {
    var p := Lower(Strip(port));
    p != "" && forall k :: 0 <= k < |LOGICAL_PREFIXES| ==> !Decimal.StartsWith(p, LOGICAL_PREFIXES[k])
  }

  function MacCount(c: Context, m: Seen): nat {
    var key := (m.switchId, Lower(m.port));
    if key in c.counts then c.counts[key] else UNKNOWN_COUNT
  }

  predicate IsUplink(c: Context, m: Seen) { (m.switchId, Lower(Strip(m.port))) in c.uplinks }

  function Members(c: Context, m: Seen): seq<string> {
    var key := (m.switchId, Lower(m.port));
    if key in c.members then c.members[key] else []
  }

  /** Physical ports before resolvable port-channels before everything else. */
  function Class(c: Context, m: Seen): (rank: nat)
    ensures rank <= 2
  {
    if IsPhysicalPort(m.port) then 0 else if Members(c, m) != [] then 1 else 2
  }

  function ChannelText(c: Context, m: Seen): string { Decimal.Join(Members(c, m), ", ") + " (" + m.port + ")" }

  function ViaText(m: Seen): string { m.switchName + ":" + m.port }

  /** The observations other than number `i`, in order. */
  function Others(ms: seq<Seen>, i: nat): (via: seq<string>)
    requires i < |ms|
    ensures |via| == |ms| - 1
    ensures forall k :: 0 <= k < i ==> via[k] == ViaText(ms[k])
    ensures forall k :: i < k < |ms| ==> via[k - 1] == ViaText(ms[k])
  {
    seq(|ms| - 1, k requires 0 <= k < |ms| - 1 => ViaText(if k < i then ms[k] else ms[k + 1]))
  }

  // ---- The specification, without reference to order of treatment ----

  /** What the choice depends on. */
  datatype Port = Port(rank: nat, count: nat, uplink: bool)

  function Profile(ms: seq<Seen>, c: Context): (ps: seq<Port>)
    ensures |ps| == |ms|
    ensures forall i :: 0 <= i < |ms| ==> ps[i] == Port(Class(c, ms[i]), MacCount(c, ms[i]), IsUplink(c, ms[i]))
  {
    seq(|ms|, i requires 0 <= i < |ms| => Port(Class(c, ms[i]), MacCount(c, ms[i]), IsUplink(c, ms[i])))
  }

  predicate AllUplink(ps: seq<Port>) { forall i :: 0 <= i < |ps| ==> ps[i].uplink }

  /** Observations taken into account: those not on uplinks, or all when there are no others. */
  predicate Eligible(ps: seq<Port>, i: int) { 0 <= i < |ps| && (ps[i].uplink ==> AllUplink(ps)) }

  /** Observation `i` is to be preferred to `j`: by class, then by MAC count, then by position. */
  predicate Preferred(ps: seq<Port>, i: int, j: int)
    requires 0 <= i < |ps| && 0 <= j < |ps|
  {
    if ps[i].rank != ps[j].rank then ps[i].rank < ps[j].rank
    else if ps[i].rank < 2 && ps[i].count != ps[j].count then ps[i].count < ps[j].count
    else i <= j
  }

  /** The best of the eligible observations. */
  ghost predicate Best(ps: seq<Port>, i: int) {
    Eligible(ps, i) && forall j :: Eligible(ps, j) ==> Preferred(ps, i, j)
  }

  predicate Edge(ps: seq<Port>, rank: nat, i: int) { 0 <= i < |ps| && !ps[i].uplink && ps[i].rank == rank }

  /** Few MACs, or at most half as many as on every other physical port. */
  ghost predicate Stands(ps: seq<Port>, i: int)
    requires 0 <= i < |ps|
  {
    ps[i].count <= EDGE_MAC_MAX || forall j :: Edge(ps, 0, j) && j != i ==> 2 * ps[i].count <= ps[j].count
  }

  /** When the device counts as directly attached: some non-uplink physical port stands out, or there is
      none and some non-uplink port-channel has few MACs. */
  ghost predicate Direct(ps: seq<Port>) {
    if exists i :: Edge(ps, 0, i) then exists i :: Edge(ps, 0, i) && Stands(ps, i)
    else exists i :: Edge(ps, 1, i) && ps[i].count <= EDGE_MAC_MAX
  }

  /** A port-channel is shown by its members only when the device is taken to be plugged into them. */
  function PortText(ms: seq<Seen>, c: Context, i: nat, direct: bool): string
    requires i < |ms|
  {
    if direct && Class(c, ms[i]) == 1 then ChannelText(c, ms[i]) else ms[i].port
  }

  // ---- The algorithm ----

  ghost predicate Increasing(xs: seq<nat>) { forall a, b :: 0 <= a < b < |xs| ==> xs[a] < xs[b] }

  ghost predicate InRange(xs: seq<nat>, n: nat) { forall a :: 0 <= a < |xs| ==> xs[a] < n }

  predicate Before(ps: seq<Port>, x: nat, y: nat)
    requires x < |ps| && y < |ps|
  {
    ps[x].count < ps[y].count || (ps[x].count == ps[y].count && x < y)
  }

  ghost predicate SortedByCount(xs: seq<nat>, ps: seq<Port>)
    requires InRange(xs, |ps|)
  {
    forall a, b :: 0 <= a < b < |xs| ==> Before(ps, xs[a], xs[b])
  }

  /** `list.sort(key=...)`: stable, so equal counts stay in order of position. */
  method SortByCount(xs: seq<nat>, ps: seq<Port>) returns (ys: seq<nat>)
    requires InRange(xs, |ps|) && Increasing(xs)
    ensures InRange(ys, |ps|) && SortedByCount(ys, ps)
    ensures multiset(ys) == multiset(xs)
  {
    ys := [];
    for n := 0 to |xs|
      invariant |ys| == n && InRange(ys, |ps|) && SortedByCount(ys, ps)
      invariant multiset(ys) == multiset(xs[..n])
    {
      hide SortedByCount;
      var x := xs[n];
      LaterThanAll(xs, n, ys);
      assert xs[..n + 1] == xs[..n] + [x];
      ys := InsertByCount(ys, x, ps);
    }
    assert xs[..|xs|] == xs;
  }

  lemma LaterThanAll(xs: seq<nat>, n: nat, ys: seq<nat>)
    requires n < |xs| && Increasing(xs) && multiset(ys) == multiset(xs[..n])
    ensures forall a :: 0 <= a < |ys| ==> ys[a] < xs[n]
  {
    forall a | 0 <= a < |ys| ensures ys[a] < xs[n] {
      assert ys[a] in multiset(ys);
      assert ys[a] in xs[..n];
    }
  }

  /** One step of the sort: behind every element with at most its count. */
  method InsertByCount(ys: seq<nat>, x: nat, ps: seq<Port>) returns (zs: seq<nat>)
    requires InRange(ys, |ps|) && SortedByCount(ys, ps) && x < |ps| && forall a :: 0 <= a < |ys| ==> ys[a] < x
    ensures InRange(zs, |ps|) && SortedByCount(zs, ps) && |zs| == |ys| + 1
    ensures multiset(zs) == multiset(ys) + multiset{x}
  {
    var p := |ys|;
    while p > 0 && ps[ys[p - 1]].count > ps[x].count
      invariant 0 <= p <= |ys| && forall a :: p <= a < |ys| ==> Before(ps, x, ys[a])
    {
      p := p - 1;
    }
    assert forall a :: 0 <= a < p ==> Before(ps, ys[a], x);
    zs := Insert(ys, p, x);
  }

  function Insert(ys: seq<nat>, p: nat, x: nat): (zs: seq<nat>)
    requires p <= |ys|
    ensures |zs| == |ys| + 1 && zs[p] == x
    ensures forall a :: 0 <= a < p ==> zs[a] == ys[a]
    ensures forall a :: p < a < |zs| ==> zs[a] == ys[a - 1]
    ensures multiset(zs) == multiset(ys) + multiset{x}
  {
    assert ys == ys[..p] + ys[p..];
    ys[..p] + [x] + ys[p..]
  }

  /** `xs` are the eligible observations of one class among the first `n`, in order. */
  ghost predicate Gathered(ps: seq<Port>, n: nat, rank: nat, xs: seq<nat>) {
    && Increasing(xs) && InRange(xs, |ps|) && InRange(xs, n)
    && (forall a :: 0 <= a < |xs| ==> Eligible(ps, xs[a]) && ps[xs[a]].rank == rank)
    && (forall i :: 0 <= i < n && Eligible(ps, i) && ps[i].rank == rank ==> i in xs)
  }

  method ChooseAttachment(ms: seq<Seen>, c: Context) returns (r: Option<Choice>)
    ensures r.None? <==> ms == []
    ensures r.Some? ==> Best(Profile(ms, c), r.value.index)
    ensures r.Some? ==> (r.value.direct <==> Direct(Profile(ms, c)))
    ensures r.Some? ==> r.value.via == Others(ms, r.value.index)
    ensures r.Some? ==> r.value.port == PortText(ms, c, r.value.index, r.value.direct)
    ensures r.Some? ==> RightlyChosen(ms, c, r.value)
  {
    hide RightlyChosen, MacCount, IsUplink, Class, ChannelText, Others, Direct, Best;
    if ms == [] {
      return None;
    }
    var ps := Profile(ms, c);
    var chosen, direct := Choose(ps);
    ChoiceMeans(ms, c, chosen, direct);
    r := Some(Choice(chosen, PortText(ms, c, chosen, direct), direct, Others(ms, chosen)));
  }

  /** The three lists of observations, in order of position. */
  method Gather(ps: seq<Port>) returns (physical: seq<nat>, pchan: seq<nat>, logical: seq<nat>)
    requires forall i :: 0 <= i < |ps| ==> ps[i].rank <= 2
    ensures Gathered(ps, |ps|, 0, physical) && Gathered(ps, |ps|, 1, pchan) && Gathered(ps, |ps|, 2, logical)
  {
    hide Gathered, Eligible, AllUplink;
    var allUplink := AllUplink(ps);
    physical, pchan, logical := [], [], [];
    GatheredNone(ps);
    for i := 0 to |ps|
      invariant Gathered(ps, i, 0, physical) && Gathered(ps, i, 1, pchan) && Gathered(ps, i, 2, logical)
    {
      GatherStep(ps, i, 0, physical);
      GatherStep(ps, i, 1, pchan);
      GatherStep(ps, i, 2, logical);
      EligibleIff(ps, i);
      if !ps[i].uplink || allUplink {
        if ps[i].rank == 0 {
          physical := physical + [i];
        } else if ps[i].rank == 1 {
          pchan := pchan + [i];
        } else {
          logical := logical + [i];
        }
      }
    }
  }

  lemma GatheredNone(ps: seq<Port>)
    ensures forall rank :: Gathered(ps, 0, rank, [])
  {
  }

  lemma EligibleIff(ps: seq<Port>, i: nat)
    requires i < |ps|
    ensures Eligible(ps, i) <==> !ps[i].uplink || AllUplink(ps)
  {
  }

  lemma GatherStep(ps: seq<Port>, i: nat, rank: nat, xs: seq<nat>)
    requires i < |ps| && Gathered(ps, i, rank, xs)
    ensures Gathered(ps, i + 1, rank, if Eligible(ps, i) && ps[i].rank == rank then xs + [i] else xs)
  {
    hide Eligible, InRange, Increasing;
    Extended(xs, i, |ps|);
    if Eligible(ps, i) && ps[i].rank == rank {
      var ys := xs + [i];
      forall j | 0 <= j < i + 1 && Eligible(ps, j) && ps[j].rank == rank ensures j in ys {
        if j < i { assert j in xs; } else { assert ys[|xs|] == j; }
      }
    }
  }

  lemma Extended(xs: seq<nat>, i: nat, n: nat)
    requires Increasing(xs) && InRange(xs, i) && i < n
    ensures Increasing(xs + [i]) && InRange(xs + [i], i + 1) && InRange(xs + [i], n)
    ensures InRange(xs, i + 1)
  {
  }

  method Choose(ps: seq<Port>) returns (chosen: nat, direct: bool)
    requires ps != [] && forall i :: 0 <= i < |ps| ==> ps[i].rank <= 2
    ensures chosen < |ps| && Best(ps, chosen) && (direct <==> Direct(ps))
  {
    hide Direct, Best, Gathered, AllOfRank, SortedByCount, Eligible;
    var physical, pchan, logical := Gather(ps);
    BestIsIndex(ps);
    if physical != [] {
      ghost var xs := physical;
      GatheredFacts(ps, 0, xs);
      physical := SortByCount(physical, ps);
      SortedGathered(ps, 0, xs, physical);
      AllOfRankFacts(ps, 0, physical);
      PhysicalIsBest(ps, physical);
      chosen := physical[0];
      var best := ps[chosen].count;
      direct := |physical| == 1 || best <= EDGE_MAC_MAX || best * 2 <= ps[physical[1]].count;
      if !AllUplink(ps) {
        DirectByPhysical(ps, physical);
      }
    } else if pchan != [] {
      ghost var xs := pchan;
      GatheredFacts(ps, 1, xs);
      pchan := SortByCount(pchan, ps);
      SortedGathered(ps, 1, xs, pchan);
      AllOfRankFacts(ps, 1, pchan);
      NoneOfRank(ps, 0);
      ChannelIsBest(ps, pchan);
      chosen := pchan[0];
      direct := ps[chosen].count <= EDGE_MAC_MAX;
    } else {
      OnlyLogical(ps);
      LogicalIsBest(ps, logical);
      chosen := logical[0];
      direct := false;
    }
    if ps[chosen].uplink {
      direct := false;
      ChosenUplink(ps, chosen);
    }
  }

  lemma BestIsIndex(ps: seq<Port>)
    ensures forall i :: Best(ps, i) ==> 0 <= i < |ps|
  {
  }

  lemma GatheredFacts(ps: seq<Port>, rank: nat, xs: seq<nat>)
    requires Gathered(ps, |ps|, rank, xs)
    ensures InRange(xs, |ps|) && Increasing(xs)
  {
  }

  lemma AllOfRankFacts(ps: seq<Port>, rank: nat, xs: seq<nat>)
    requires AllOfRank(ps, rank, xs)
    ensures xs != [] && InRange(xs, |ps|)
  {
  }

  lemma NoneOfRank(ps: seq<Port>, rank: nat)
    requires Gathered(ps, |ps|, rank, [])
    ensures forall i :: Eligible(ps, i) ==> ps[i].rank != rank
  {
  }

  lemma OnlyLogical(ps: seq<Port>)
    requires forall i :: 0 <= i < |ps| ==> ps[i].rank <= 2
    requires Gathered(ps, |ps|, 0, []) && Gathered(ps, |ps|, 1, [])
    ensures forall i :: Eligible(ps, i) ==> ps[i].rank == 2
  {
    NoneOfRank(ps, 0);
    NoneOfRank(ps, 1);
  }

  /** The choice is on an uplink only when everything is, and then nothing is direct. */
  lemma ChosenUplink(ps: seq<Port>, i: nat)
    requires Best(ps, i) && ps[i].uplink
    ensures AllUplink(ps) && !Direct(ps)
  {
    NotDirectWhenAllUplink(ps);
  }

  ghost predicate AllOfRank(ps: seq<Port>, rank: nat, xs: seq<nat>) {
    && InRange(xs, |ps|) && xs != []
    && (forall a :: 0 <= a < |xs| ==> Eligible(ps, xs[a]) && ps[xs[a]].rank == rank)
    && (forall i :: Eligible(ps, i) && ps[i].rank == rank ==> i in xs)
  }

  lemma SortedGathered(ps: seq<Port>, rank: nat, xs: seq<nat>, ys: seq<nat>)
    requires Gathered(ps, |ps|, rank, xs) && xs != [] && InRange(ys, |ps|) && multiset(xs) == multiset(ys)
    ensures AllOfRank(ps, rank, ys)
  {
    forall i | i in xs ensures i in ys { assert i in multiset(xs); }
    forall a | 0 <= a < |ys| ensures ys[a] in xs { assert ys[a] in multiset(ys); }
  }

  lemma PhysicalIsBest(ps: seq<Port>, xs: seq<nat>)
    requires AllOfRank(ps, 0, xs) && SortedByCount(xs, ps)
    ensures Best(ps, xs[0])
  {
    forall j | Eligible(ps, j) ensures Preferred(ps, xs[0], j) {
      if ps[j].rank == 0 {
        var a :| 0 <= a < |xs| && xs[a] == j;
        assert a > 0 ==> Before(ps, xs[0], xs[a]);
      }
    }
  }

  lemma ChannelIsBest(ps: seq<Port>, xs: seq<nat>)
    requires AllOfRank(ps, 1, xs) && SortedByCount(xs, ps)
    requires forall i :: Eligible(ps, i) ==> ps[i].rank != 0
    ensures Best(ps, xs[0])
    ensures !ps[xs[0]].uplink ==> (Direct(ps) <==> ps[xs[0]].count <= EDGE_MAC_MAX)
  {
    forall j | Eligible(ps, j) ensures Preferred(ps, xs[0], j) {
      if ps[j].rank == 1 {
        var a :| 0 <= a < |xs| && xs[a] == j;
        assert a > 0 ==> Before(ps, xs[0], xs[a]);
      }
    }
    if !ps[xs[0]].uplink {
      assert Edge(ps, 1, xs[0]);
      assert forall i :: Edge(ps, 0, i) ==> Eligible(ps, i);
      forall i | Edge(ps, 1, i) ensures ps[xs[0]].count <= ps[i].count {
        assert Preferred(ps, xs[0], i);
      }
    }
  }

  lemma LogicalIsBest(ps: seq<Port>, xs: seq<nat>)
    requires ps != [] && Gathered(ps, |ps|, 2, xs)
    requires forall i :: Eligible(ps, i) ==> ps[i].rank == 2
    ensures xs != [] && Best(ps, xs[0]) && !Direct(ps)
  {
    if AllUplink(ps) {
      assert Eligible(ps, 0);
    } else {
      var i :| 0 <= i < |ps| && !ps[i].uplink;
      assert Eligible(ps, i);
    }
    forall j | Eligible(ps, j) ensures Preferred(ps, xs[0], j) {
      var a :| 0 <= a < |xs| && xs[a] == j;
    }
    assert forall k, i :: Edge(ps, k, i) ==> Eligible(ps, i);
  }

  lemma NotDirectWhenAllUplink(ps: seq<Port>)
    ensures AllUplink(ps) ==> !Direct(ps)
  {
  }

  /** Comparing the two smallest counts decides the same as comparing all of them. */
  lemma DirectByPhysical(ps: seq<Port>, xs: seq<nat>)
    requires AllOfRank(ps, 0, xs) && SortedByCount(xs, ps) && !AllUplink(ps)
    ensures Direct(ps) <==>
      |xs| == 1 || ps[xs[0]].count <= EDGE_MAC_MAX || ps[xs[0]].count * 2 <= ps[xs[1]].count
  {
    forall a | 0 <= a < |xs| ensures Edge(ps, 0, xs[a]) {
    }
    if Direct(ps) {
      var i :| Edge(ps, 0, i) && Stands(ps, i);
      if |xs| > 1 && ps[xs[0]].count > EDGE_MAC_MAX {
        StandsIsLeast(ps, xs, i);
      }
    }
    if |xs| == 1 || ps[xs[0]].count <= EDGE_MAC_MAX || ps[xs[0]].count * 2 <= ps[xs[1]].count {
      LeastStands(ps, xs);
    }
  }

  lemma HeadIsFirst(ps: seq<Port>, xs: seq<nat>, a: nat)
    requires InRange(xs, |ps|) && SortedByCount(xs, ps) && a < |xs|
    ensures a > 0 ==> Before(ps, xs[0], xs[a])
  {
  }

  lemma StandsIsLeast(ps: seq<Port>, xs: seq<nat>, i: int)
    requires AllOfRank(ps, 0, xs) && SortedByCount(xs, ps) && !AllUplink(ps)
    requires Edge(ps, 0, i) && Stands(ps, i) && |xs| > 1 && ps[xs[0]].count > EDGE_MAC_MAX
    ensures ps[xs[0]].count * 2 <= ps[xs[1]].count
  {
    assert Eligible(ps, i) && i in xs;
    var a :| 0 <= a < |xs| && xs[a] == i;
    HeadIsFirst(ps, xs, 1);
    HeadIsFirst(ps, xs, a);
    assert Edge(ps, 0, xs[0]) && Edge(ps, 0, xs[1]);
  }

  lemma LeastStands(ps: seq<Port>, xs: seq<nat>)
    requires AllOfRank(ps, 0, xs) && SortedByCount(xs, ps) && !AllUplink(ps)
    requires |xs| == 1 || ps[xs[0]].count <= EDGE_MAC_MAX || ps[xs[0]].count * 2 <= ps[xs[1]].count
    ensures Edge(ps, 0, xs[0]) && Stands(ps, xs[0])
  {
    forall j | Edge(ps, 0, j) && j != xs[0] && ps[xs[0]].count > EDGE_MAC_MAX
      ensures 2 * ps[xs[0]].count <= ps[j].count
    {
      assert Eligible(ps, j) && j in xs;
      var a :| 0 <= a < |xs| && xs[a] == j;
      assert a > 1 ==> Before(ps, xs[1], xs[a]);
    }
  }

  // ---- What follows ----

  /** A direct attachment is never on a port known to lead to another switch. */
  lemma NeverDirectOnUplink(ps: seq<Port>, i: int)
    requires Best(ps, i) && Direct(ps)
    ensures !ps[i].uplink
  {
    NotDirectWhenAllUplink(ps);
  }

  /** Whenever some non-uplink physical port has seen the MAC, the choice is such a port with the least count. */
  lemma LeastPhysicalChosen(ps: seq<Port>, i: int, j: int)
    requires Best(ps, i) && Edge(ps, 0, j)
    ensures Edge(ps, 0, i) && ps[i].count <= ps[j].count
  {
    assert Eligible(ps, j);
    assert Preferred(ps, i, j);
  }

  /** Reordering the observations (`p` and `q` are inverse renumberings) does not change the direct flag. */
  lemma DirectIgnoresOrder(ps: seq<Port>, ps': seq<Port>, p: seq<nat>, q: seq<nat>)
    requires Renumbers(ps, ps', p, q) && Renumbers(ps', ps, q, p)
    ensures Direct(ps) <==> Direct(ps')
  {
    if Direct(ps) {
      DirectMoves(ps, ps', p, q);
    }
    if Direct(ps') {
      DirectMoves(ps', ps, q, p);
    }
  }

  ghost predicate Renumbers(ps: seq<Port>, ps': seq<Port>, p: seq<nat>, q: seq<nat>) {
    && |p| == |q| == |ps| == |ps'|
    && forall i :: 0 <= i < |ps| ==> p[i] < |ps| && q[p[i]] == i && ps[i] == ps'[p[i]]
  }

  lemma DirectMoves(ps: seq<Port>, ps': seq<Port>, p: seq<nat>, q: seq<nat>)
    requires Renumbers(ps, ps', p, q) && Renumbers(ps', ps, q, p) && Direct(ps)
    ensures Direct(ps')
  {
    forall k, j | Edge(ps', k, j) ensures Edge(ps, k, q[j]) {
    }
    if k :| Edge(ps, 0, k) {
      var i :| Edge(ps, 0, i) && Stands(ps, i);
      assert Edge(ps', 0, p[i]);
      if ps[i].count > EDGE_MAC_MAX {
        forall j | Edge(ps', 0, j) && j != p[i] ensures 2 * ps[i].count <= ps'[j].count {
          assert Edge(ps, 0, q[j]) && q[j] != i;
        }
      }
      assert Stands(ps', p[i]);
    } else {
      var i :| Edge(ps, 1, i) && ps[i].count <= EDGE_MAC_MAX;
      assert Edge(ps', 1, p[i]);
    }
  }

  // ---- The same in terms of the observations ----

  /** The port is known to lead to another switch. */
  predicate LeadsOn(c: Context, m: Seen) { (m.switchId, Lower(Strip(m.port))) in c.uplinks }

  /** The name begins with none of the names of logical interfaces, in any case of its letters. */
  ghost predicate LooksPhysical(port: string) {
    var t := Strip(port);
    t != "" && !Begins(t, "po") && !Begins(t, "vl") && !Begins(t, "lo") && !Begins(t, "tu") && !Begins(t, "ae") &&
    !Begins(t, "bundle") && !Begins(t, "irb")
  }

  predicate Begins(t: string, p: string) { |p| <= |t| && SameLetters(t[..|p|], p) }

  /** A port-channel whose members are known. */
  ghost predicate IsChannel(c: Context, m: Seen) {
    !LooksPhysical(m.port) && (m.switchId, Lower(m.port)) in c.members && c.members[(m.switchId, Lower(m.port))] != []
  }

  /** How many MACs the port has seen; many, if that is not known. */
  function Tally(c: Context, m: Seen): nat {
    if (m.switchId, Lower(m.port)) in c.counts then c.counts[(m.switchId, Lower(m.port))] else 9999
  }

  /** Of two ports of a kind the one with fewer MACs, or the first, comes first. */
  predicate ComesFirst(ms: seq<Seen>, c: Context, i: nat, j: nat)
    requires i < |ms| && j < |ms|
  {
    Tally(c, ms[i]) < Tally(c, ms[j]) || (Tally(c, ms[i]) == Tally(c, ms[j]) && i <= j)
  }

  /** Before observation `j`, which does not lead to another switch or leads there like all others, `i` is rightly
      chosen: physical ports before channels before the rest. */
  ghost predicate Beats(ms: seq<Seen>, c: Context, i: nat, j: nat)
    requires i < |ms| && j < |ms|
  {
    if LooksPhysical(ms[i].port) then LooksPhysical(ms[j].port) ==> ComesFirst(ms, c, i, j)
    else if IsChannel(c, ms[i]) then !LooksPhysical(ms[j].port) && (IsChannel(c, ms[j]) ==> ComesFirst(ms, c, i, j))
    else !LooksPhysical(ms[j].port) && !IsChannel(c, ms[j]) && i <= j
  }

  /** Another physical port that leads to no switch has seen fewer than twice as many MACs. */
  ghost predicate Rivalled(ms: seq<Seen>, c: Context, i: nat)
    requires i < |ms|
  {
    exists j :: 0 <= j < |ms| && j != i && LooksPhysical(ms[j].port) && !LeadsOn(c, ms[j]) &&
                Tally(c, ms[j]) < 2 * Tally(c, ms[i])
  }

  ghost predicate PluggedIn(ms: seq<Seen>, c: Context, i: nat)
    requires i < |ms|
  {
    && !LeadsOn(c, ms[i])
    && (if LooksPhysical(ms[i].port) then Tally(c, ms[i]) <= 4 || !Rivalled(ms, c, i)
        else IsChannel(c, ms[i]) && Tally(c, ms[i]) <= 4)
  }

  ghost predicate RightlyChosen(ms: seq<Seen>, c: Context, r: Choice) {
    && r.index < |ms|
    && (LeadsOn(c, ms[r.index]) ==> forall j :: 0 <= j < |ms| ==> LeadsOn(c, ms[j]))
    && (forall j :: 0 <= j < |ms| && (LeadsOn(c, ms[j]) ==> LeadsOn(c, ms[r.index])) ==> Beats(ms, c, r.index, j))
    && (r.direct <==> PluggedIn(ms, c, r.index))
    && r.port == (if r.direct && !LooksPhysical(ms[r.index].port)
                  then Decimal.Join(c.members[(ms[r.index].switchId, Lower(ms[r.index].port))], ", ") + " (" + ms[r.index].port + ")"
                  else ms[r.index].port)
    && |r.via| == |ms| - 1
    && forall k :: 0 <= k < |r.via| ==>
         var m := if k < r.index then ms[k] else ms[k + 1]; r.via[k] == m.switchName + ":" + m.port
  }

  lemma BeginsIff(t: string, p: string)
    requires Lower(p) == p
    ensures Decimal.StartsWith(Lower(t), p) <==> Begins(t, p)
  {
    if |p| <= |t| {
      CaseFolds(t[..|p|], p);
      assert Lower(t)[..|p|] == Lower(t[..|p|]);
    }
  }

  lemma LongerPrefix(t: string, p: string, q: string)
    requires p <= q && Decimal.StartsWith(t, q)
    ensures Decimal.StartsWith(t, p)
  {
    assert t[..|p|] == q[..|p|];
  }

  /** Eleven prefixes, of which four begin with another. */
  lemma PhysicalIff(port: string)
    ensures IsPhysicalPort(port) <==> LooksPhysical(port)
  {
    hide Begins, Decimal.StartsWith;
    var t := Strip(port);
    var p := Lower(t);
    assert p == "" <==> t == "";
    AlreadyLower();
    BeginsIff(t, "po");
    BeginsIff(t, "vl");
    BeginsIff(t, "lo");
    BeginsIff(t, "tu");
    BeginsIff(t, "ae");
    BeginsIff(t, "bundle");
    BeginsIff(t, "irb");
    if Decimal.StartsWith(p, "port-channel") { LongerPrefix(p, "po", "port-channel"); }
    if Decimal.StartsWith(p, "vlan") { LongerPrefix(p, "vl", "vlan"); }
    if Decimal.StartsWith(p, "loopback") { LongerPrefix(p, "lo", "loopback"); }
    if Decimal.StartsWith(p, "tunnel") { LongerPrefix(p, "tu", "tunnel"); }
    var l := LOGICAL_PREFIXES;
    assert l[0] == "po" && l[1] == "port-channel" && l[2] == "vl" && l[3] == "vlan" && l[4] == "lo" && l[5] == "loopback";
    assert l[6] == "tu" && l[7] == "tunnel" && l[8] == "ae" && l[9] == "bundle" && l[10] == "irb" && |l| == 11;
  }

  lemma AlreadyLower()
    ensures Lower("po") == "po" && Lower("vl") == "vl" && Lower("lo") == "lo" && Lower("tu") == "tu" && Lower("ae") == "ae"
    ensures Lower("bundle") == "bundle" && Lower("irb") == "irb"
  {
  }

  /** What the choice means for the observations: see `RightlyChosen`. */
  lemma ChoiceMeans(ms: seq<Seen>, c: Context, i: nat, direct: bool)
    requires Best(Profile(ms, c), i) && (direct <==> Direct(Profile(ms, c)))
    ensures i < |ms| && RightlyChosen(ms, c, Choice(i, PortText(ms, c, i, direct), direct, Others(ms, i)))
  {
    hide LooksPhysical, LeadsOn, Lower, Decimal.Join, Best, Direct, Beats, PluggedIn, IsChannel, Describes, Class, PortText, Others;
    var ps := Profile(ms, c);
    BestIsIndex(ps);
    ProfileDescribes(ms, c);
    ChoiceBeats(ms, c, ps, i);
    DirectMeans(ms, c, ps, i);
    TextMeans(ms, c, i, direct);
    ViaMeans(ms, i);
  }

  lemma ViaMeans(ms: seq<Seen>, i: nat)
    requires i < |ms|
    ensures |Others(ms, i)| == |ms| - 1
    ensures forall k :: 0 <= k < |ms| - 1 ==>
      var m := if k < i then ms[k] else ms[k + 1]; Others(ms, i)[k] == m.switchName + ":" + m.port
  {
    forall k | 0 <= k < |ms| - 1
      ensures var m := if k < i then ms[k] else ms[k + 1]; Others(ms, i)[k] == m.switchName + ":" + m.port
    {
      if k >= i { assert Others(ms, i)[(k + 1) - 1] == ViaText(ms[k + 1]); }
    }
  }

  lemma TextMeans(ms: seq<Seen>, c: Context, i: nat, direct: bool)
    requires i < |ms| && (direct && !LooksPhysical(ms[i].port) ==> IsChannel(c, ms[i]))
    ensures PortText(ms, c, i, direct) == if direct && !LooksPhysical(ms[i].port)
      then Decimal.Join(c.members[(ms[i].switchId, Lower(ms[i].port))], ", ") + " (" + ms[i].port + ")" else ms[i].port
  {
    hide LooksPhysical, Lower, Decimal.Join, Class, IsChannel;
    ClassIs(c, ms[i]);
  }

  lemma ClassIs(c: Context, m: Seen)
    ensures Class(c, m) == if LooksPhysical(m.port) then 0 else if IsChannel(c, m) then 1 else 2
    ensures IsChannel(c, m) ==>
      (&& !LooksPhysical(m.port) && (m.switchId, Lower(m.port)) in c.members
       && Members(c, m) == c.members[(m.switchId, Lower(m.port))])
  {
    hide LooksPhysical, IsPhysicalPort, Lower;
    PhysicalIff(m.port);
  }

  lemma ProfileDescribes(ms: seq<Seen>, c: Context)
    ensures Describes(ms, c, Profile(ms, c))
  {
    hide LooksPhysical, IsChannel, Class, Lower, Strip;
    forall j | 0 <= j < |ms|
      ensures Class(c, ms[j]) == if LooksPhysical(ms[j].port) then 0 else if IsChannel(c, ms[j]) then 1 else 2
    {
      ClassIs(c, ms[j]);
    }
  }

  ghost predicate Describes(ms: seq<Seen>, c: Context, ps: seq<Port>) {
    && |ps| == |ms|
    && forall j :: 0 <= j < |ms| ==>
         && (ps[j].uplink <==> LeadsOn(c, ms[j])) && ps[j].count == Tally(c, ms[j])
         && ps[j].rank == if LooksPhysical(ms[j].port) then 0 else if IsChannel(c, ms[j]) then 1 else 2
  }

  lemma ChoiceBeats(ms: seq<Seen>, c: Context, ps: seq<Port>, i: nat)
    requires Describes(ms, c, ps) && Best(ps, i) && i < |ms|
    ensures LeadsOn(c, ms[i]) ==> forall j :: 0 <= j < |ms| ==> LeadsOn(c, ms[j])
    ensures forall j :: 0 <= j < |ms| && (LeadsOn(c, ms[j]) ==> LeadsOn(c, ms[i])) ==> Beats(ms, c, i, j)
  {
    hide LooksPhysical, LeadsOn, IsChannel, Tally;
    forall j | 0 <= j < |ms| && (LeadsOn(c, ms[j]) ==> LeadsOn(c, ms[i])) ensures Beats(ms, c, i, j) {
      assert Eligible(ps, j) && Preferred(ps, i, j);
    }
  }

  lemma DirectMeans(ms: seq<Seen>, c: Context, ps: seq<Port>, i: nat)
    requires Describes(ms, c, ps) && Best(ps, i) && i < |ms|
    ensures Direct(ps) <==> PluggedIn(ms, c, i)
    ensures Direct(ps) && !LooksPhysical(ms[i].port) ==> IsChannel(c, ms[i])
  {
    hide LooksPhysical, LeadsOn, IsChannel, Tally;
    if ps[i].uplink {
      NotDirectWhenAllUplink(ps);
    } else if k :| Edge(ps, 0, k) {
      LeastPhysicalChosen(ps, i, k);
      StandsFirst(ps, i);
      assert Stands(ps, i) <==> ps[i].count <= 4 || !Rivalled(ms, c, i) by { StandsMeans(ms, c, ps, i); }
    } else {
      assert !Edge(ps, 0, i) && (Edge(ps, 1, i) <==> ps[i].rank == 1);
      forall j | Edge(ps, 1, j) ensures Edge(ps, 1, i) && ps[i].count <= ps[j].count {
        assert Eligible(ps, j) && Preferred(ps, i, j);
      }
    }
  }

  lemma StandsMeans(ms: seq<Seen>, c: Context, ps: seq<Port>, i: nat)
    requires Describes(ms, c, ps) && i < |ms|
    ensures Stands(ps, i) <==> Tally(c, ms[i]) <= 4 || !Rivalled(ms, c, i)
  {
    hide LooksPhysical, LeadsOn, IsChannel, Tally;
    forall j ensures Edge(ps, 0, j) <==> 0 <= j < |ms| && LooksPhysical(ms[j].port) && !LeadsOn(c, ms[j]) {
    }
  }

  /** If any physical port stands out, the chosen one does. */
  lemma StandsFirst(ps: seq<Port>, i: int)
    requires Best(ps, i) && Edge(ps, 0, i)
    ensures Direct(ps) <==> Stands(ps, i)
  {
    if Direct(ps) {
      var k :| Edge(ps, 0, k) && Stands(ps, k);
      LeastPhysicalChosen(ps, i, k);
    }
  }
}

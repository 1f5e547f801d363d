/** The debounced monitor of core/facility.py (`monitor_known_hosts`): between band scans, known hosts are
    re-judged from the switches' MAC tables alone. */
module ScanMonitor {
  import opened Wrappers
  import opened Text

  const MISS_THRESHOLD: nat := 2

  /** The newest MAC snapshot of each switch: (switch id, snapshot id). */
  type Generation = seq<(int, int)>

  type Key = (string, string)

  datatype Known = Known(subnet: string, ip: string, mac: string, online: bool)

  function KeyOf(h: Known): Key { (h.subnet, h.ip) }

  /** A host's flag together with its entry in the miss table. */
  datatype Watch = Watch(online: bool, miss: Option<(nat, Generation)>)

  /** The judgement of one host in one call. */
  function Judge(w: Watch, alive: bool, generation: Generation): Watch {
    if alive then Watch(true, None)
    else if !w.online then w
    else if w.miss.Some? && w.miss.value.1 == generation then w
    else
      var n := (if w.miss.Some? then w.miss.value.0 else 0) + 1;
      if n >= MISS_THRESHOLD then Watch(false, None) else Watch(true, Some((n, generation)))
  }

  /** ... and of a host without a MAC there is none. */
  function JudgeHost(h: Known, miss: Option<(nat, Generation)>, macAlive: set<string>, generation: Generation): Watch {
    if h.mac == "" then Watch(h.online, miss) else Judge(Watch(h.online, miss), Lower(h.mac) in macAlive, generation)
  }

  function Lookup<T>(m: map<Key, T>, k: Key): Option<T> { if k in m then Some(m[k]) else None }

  ghost predicate UniqueKeys(hosts: seq<Known>) {
    forall i, j :: 0 <= i < j < |hosts| ==> KeyOf(hosts[i]) != KeyOf(hosts[j])
  }

  function Verdict(h: Known, misses: map<Key, (nat, Generation)>, macAlive: set<string>, generation: Generation): Watch {
    JudgeHost(h, Lookup(misses, KeyOf(h)), macAlive, generation)
  }

  /** How many of the hosts are judged to turn to `online`, for the events and the returned counts. */
  function Turned(hosts: seq<Known>, misses: map<Key, (nat, Generation)>, macAlive: set<string>, generation: Generation,
                  online: bool): nat
  {
    if hosts == [] then 0 else
    var h := hosts[|hosts| - 1];
    Turned(hosts[..|hosts| - 1], misses, macAlive, generation, online) +
      if h.online != online && Verdict(h, misses, macAlive, generation).online == online then 1 else 0
  }

  function Recorded<T>(m: map<Key, T>, key: Key, entry: Option<T>): map<Key, T> {
    if entry.Some? then m[key := entry.value] else m - {key}
  }

  lemma OtherKeys<T>(m: map<Key, T>, key: Key, entry: Option<T>)
    ensures Lookup(Recorded(m, key, entry), key) == entry
    ensures forall k :: k != key ==> Lookup(Recorded(m, key, entry), k) == Lookup(m, k)
  {
  }

  /** Entries of hosts that are no longer stored are forgotten. */
  function Pruned<T>(m: map<Key, T>, hosts: seq<Known>): map<Key, T> {
    var seen := set i | 0 <= i < |hosts| :: KeyOf(hosts[i]);
    map k | k in m && k in seen :: m[k]
  }

  lemma PruneKeeps<T>(m: map<Key, T>, hosts: seq<Known>)
    ensures forall i :: 0 <= i < |hosts| ==> Lookup(Pruned(m, hosts), KeyOf(hosts[i])) == Lookup(m, KeyOf(hosts[i]))
    ensures forall k :: k in Pruned(m, hosts) ==> exists i :: 0 <= i < |hosts| && KeyOf(hosts[i]) == k
  {
    hide KeyOf;
  }

  class Monitor {
    /** The stored hosts. */
    var hosts: seq<Known>
    var missCounts: map<Key, (nat, Generation)>

    constructor (hosts: seq<Known>)
      ensures this.hosts == hosts && missCounts == map[]
    {
      this.hosts, missCounts := hosts, map[];
    }

    /** One call. `writable` says for which subnets the write goes through. A call made during a band scan,
        or without any MAC table, does nothing. */
    method MonitorKnownHosts(running: bool, macAlive: set<string>, generation: Generation, writable: set<string>)
      returns (restored: nat, dropped: nat)
      requires UniqueKeys(hosts)
      modifies this
      ensures running || macAlive == {} ==> hosts == old(hosts) && missCounts == old(missCounts) && restored == dropped == 0
      ensures !running && macAlive != {} ==>
        var rows := JudgedRows(old(hosts), old(missCounts), macAlive, generation);
        hosts == RewriteAll(old(hosts), rows, Writes(old(hosts), rows, writable))
      ensures !running && macAlive != {} ==> forall i :: 0 <= i < |old(hosts)| ==>
        Lookup(missCounts, KeyOf(old(hosts)[i])) == Verdict(old(hosts)[i], old(missCounts), macAlive, generation).miss
      ensures !running && macAlive != {} ==>
        forall k :: k in missCounts ==> exists i :: 0 <= i < |old(hosts)| && KeyOf(old(hosts)[i]) == k
      ensures !running && macAlive != {} ==>
        && restored == |TurnedAt(old(hosts), old(missCounts), macAlive, generation, true)|
        && dropped == |TurnedAt(old(hosts), old(missCounts), macAlive, generation, false)|
    {
      hide TurnedAt, JudgedAs, Verdict, Turned, Pruned, RewriteAll, Writes, JudgedRows;
      restored, dropped := 0, 0;
      if running || macAlive == {} {
        return;
      }
      var rows, misses;
      rows, misses, restored, dropped := JudgeAll(hosts, missCounts, macAlive, generation);
      TurnedIs(hosts, missCounts, macAlive, generation, true);
      TurnedIs(hosts, missCounts, macAlive, generation, false);
      PruneKeeps(misses, hosts);
      forall i | 0 <= i < |hosts|
        ensures
          var w := Verdict(hosts[i], missCounts, macAlive, generation);
          rows[i] == hosts[i].(online := w.online) && Lookup(Pruned(misses, hosts), KeyOf(hosts[i])) == w.miss
      {
        JudgedMeans(rows[i], hosts[i], misses, missCounts, macAlive, generation);
      }
      RowsAre(hosts, missCounts, macAlive, generation, rows);
      missCounts := Pruned(misses, hosts);
      hosts := WriteAll(hosts, rows, writable);
    }
  }

  // ---- The writes ----

  function JudgedRows(hosts: seq<Known>, misses: map<Key, (nat, Generation)>, macAlive: set<string>, generation: Generation)
    : (rows: seq<Known>)
    ensures |rows| == |hosts|
    ensures forall i :: 0 <= i < |rows| ==>
      rows[i] == hosts[i].(online := Verdict(hosts[i], misses, macAlive, generation).online)
  {
    seq(|hosts|, i requires 0 <= i < |hosts| => hosts[i].(online := Verdict(hosts[i], misses, macAlive, generation).online))
  }

  lemma RowsAre(hosts: seq<Known>, misses: map<Key, (nat, Generation)>, macAlive: set<string>, generation: Generation,
                rows: seq<Known>)
    requires |rows| == |hosts|
    requires forall i :: 0 <= i < |rows| ==>
      rows[i] == hosts[i].(online := Verdict(hosts[i], misses, macAlive, generation).online)
    ensures rows == JudgedRows(hosts, misses, macAlive, generation)
  {
    hide Verdict;
  }

  /** The subnets with a row that changed, in the order in which they are met. */
  function Changed(stored: seq<Known>, rows: seq<Known>): (order: seq<string>)
    requires |rows| == |stored|
    ensures Distinct(order)
    ensures forall s :: s in order <==> exists i :: 0 <= i < |rows| && rows[i] != stored[i] && stored[i].subnet == s
  {
    if stored == [] then [] else
    var n := |stored| - 1;
    var front := Changed(stored[..n], rows[..n]);
    if rows[n] != stored[n] && stored[n].subnet !in front then front + [stored[n].subnet] else front
  }

  predicate Distinct(order: seq<string>) { forall i, j :: 0 <= i < j < |order| ==> order[i] != order[j] }

  function Writable(order: seq<string>, writable: set<string>): (kept: seq<string>)
    ensures forall s :: s in kept <==> s in order && s in writable
  {
    if order == [] then [] else (if order[0] in writable then [order[0]] else []) + Writable(order[1..], writable)
  }

  /** The writes that go through, one subnet after the other. */
  function Writes(stored: seq<Known>, rows: seq<Known>, writable: set<string>): seq<string>
    requires |rows| == |stored|
  {
    Writable(Changed(stored, rows), writable)
  }

  function Batch(rows: seq<Known>, subnet: string): (batch: seq<Known>)
    ensures forall r :: r in batch <==> r in rows && r.subnet == subnet
  {
    if rows == [] then [] else (if rows[0].subnet == subnet then [rows[0]] else []) + Batch(rows[1..], subnet)
  }

  predicate HasAddress(batch: seq<Known>, ip: string) { exists r :: r in batch && r.ip == ip }

  function Others(table: seq<Known>, batch: seq<Known>, subnet: string): (rest: seq<Known>)
    ensures forall r :: r in rest <==> r in table && r.subnet != subnet && !(r.ip != "" && HasAddress(batch, r.ip))
  {
    if table == [] then [] else
    var r := table[0];
    (if r.subnet != subnet && !(r.ip != "" && HasAddress(batch, r.ip)) then [r] else []) + Others(table[1..], batch, subnet)
  }

  /** Replacing a subnet by its judged rows deletes the rows of the same addresses in other subnets. */
  function Rewrite(table: seq<Known>, rows: seq<Known>, subnet: string): seq<Known> {
    Others(table, Batch(rows, subnet), subnet) + Batch(rows, subnet)
  }

  function RewriteAll(table: seq<Known>, rows: seq<Known>, order: seq<string>): seq<Known>
    decreases |order|
  {
    if order == [] then table else RewriteAll(Rewrite(table, rows, order[0]), rows, order[1..])
  }

  lemma WritableStep(order: seq<string>, k: nat, writable: set<string>)
    requires k < |order|
    ensures Writable(order[k..], writable) ==
      (if order[k] in writable then [order[k]] else []) + Writable(order[k + 1..], writable)
  {
    assert order[k..][1..] == order[k + 1..];
  }

  lemma RewriteStep(table: seq<Known>, rows: seq<Known>, order: seq<string>)
    ensures order != [] ==> RewriteAll(table, rows, order) == RewriteAll(Rewrite(table, rows, order[0]), rows, order[1..])
  {
    hide Rewrite;
  }

  lemma RewriteNothing(table: seq<Known>, rows: seq<Known>)
    ensures RewriteAll(table, rows, []) == table
  {
  }

  /** The loop over the changed subnets. */
  method WriteAll(stored: seq<Known>, rows: seq<Known>, writable: set<string>) returns (table: seq<Known>)
    requires |rows| == |stored|
    ensures table == RewriteAll(stored, rows, Writes(stored, rows, writable))
  {
    hide RewriteAll, Rewrite, Writable, Changed;
    var order := Changed(stored, rows);
    table := stored;
    assert order[0..] == order;
    for k := 0 to |order|
      invariant RewriteAll(stored, rows, Writable(order, writable)) == RewriteAll(table, rows, Writable(order[k..], writable))
    {
      var rest := Writable(order[k + 1..], writable);
      WritableStep(order, k, writable);
      assert ([order[k]] + rest)[1..] == rest && [] + rest == rest;
      RewriteStep(table, rows, Writable(order[k..], writable));
      if order[k] in writable {
        table := Rewrite(table, rows, order[k]);
      }
    }
    assert order[|order|..] == [];
    NothingWritable(writable);
    RewriteNothing(table, rows);
  }

  lemma NothingWritable(writable: set<string>)
    ensures Writable([], writable) == []
  {
  }

  /** A write that comes after that of row `i`'s own subnet, if that is written at all, brings the same address. */
  ghost predicate Displaced(rows: seq<Known>, order: seq<string>, i: nat)
    requires i < |rows|
  {
    exists k :: 0 <= k < |order| && DisplacedBy(rows, order, i, k)
  }

  predicate DisplacedBy(rows: seq<Known>, order: seq<string>, i: nat, k: nat)
    requires i < |rows| && k < |order|
  {
    rows[i].subnet !in order[k..] && Clashes(rows, order[k], rows[i].ip)
  }

  predicate Clashes(rows: seq<Known>, subnet: string, ip: string) { ip != "" && HasAddress(Batch(rows, subnet), ip) }

  /** What the table holds of row `i`: its judged form where the subnet is written, else the stored one; unless
      it was displaced. */
  ghost predicate HeldAs(stored: seq<Known>, rows: seq<Known>, order: seq<string>, i: nat, r: Known)
    requires i < |rows| == |stored|
  {
    r == (if rows[i].subnet in order then rows[i] else stored[i]) && !Displaced(rows, order, i)
  }

  ghost predicate SameHosts(stored: seq<Known>, rows: seq<Known>) {
    |rows| == |stored| && forall i :: 0 <= i < |rows| ==> KeyOf(rows[i]) == KeyOf(stored[i])
  }

  /** The table after the writes, for any table: exactly the rows, in their form, that no later write displaced. */
  lemma {:induction false} RewrittenIff(stored: seq<Known>, rows: seq<Known>, order: seq<string>, r: Known)
    requires SameHosts(stored, rows)
    ensures r in RewriteAll(stored, rows, order) <==> exists i :: 0 <= i < |rows| && HeldAs(stored, rows, order, i, r)
  {
    hide RewriteAll, Rewrite, HeldAs;
    if order == [] {
      RewriteNothing(stored, rows);
      forall i | 0 <= i < |rows| ensures HeldAs(stored, rows, [], i, r) <==> r == stored[i] { HeldAtFirst(stored, rows, i, r); }
    } else {
      var n := |order| - 1;
      var front, s := order[..n], order[n];
      var before := RewriteAll(stored, rows, front);
      RewriteLast(stored, rows, order);
      RewrittenIff(stored, rows, front, r);
      RewriteMembers(before, rows, s, r);
      forall i | 0 <= i < |rows|
        ensures HeldAs(stored, rows, order, i, r) <==>
          if r.subnet == s then r == rows[i] else HeldAs(stored, rows, front, i, r) && !Clashes(rows, s, r.ip)
      {
        HeldStep(stored, rows, order, i, r);
      }
      if r in before && r.subnet != s && !Clashes(rows, s, r.ip) {
        var i :| 0 <= i < |rows| && HeldAs(stored, rows, front, i, r);
        assert HeldAs(stored, rows, order, i, r);
      }
      if r in rows && r.subnet == s {
        var i :| 0 <= i < |rows| && rows[i] == r;
        assert HeldAs(stored, rows, order, i, r);
      }
    }
  }

  lemma HeldAtFirst(stored: seq<Known>, rows: seq<Known>, i: nat, r: Known)
    requires i < |rows| == |stored|
    ensures HeldAs(stored, rows, [], i, r) <==> r == stored[i]
  {
  }

  lemma RewriteMembers(table: seq<Known>, rows: seq<Known>, s: string, r: Known)
    ensures r in Rewrite(table, rows, s) <==>
      if r.subnet == s then r in rows else r in table && !Clashes(rows, s, r.ip)
  {
    hide HasAddress;
  }

  lemma HeldStep(stored: seq<Known>, rows: seq<Known>, order: seq<string>, i: nat, r: Known)
    requires SameHosts(stored, rows) && i < |rows| && order != []
    ensures
      var n := |order| - 1;
      HeldAs(stored, rows, order, i, r) <==>
        if r.subnet == order[n] then r == rows[i]
        else HeldAs(stored, rows, order[..n], i, r) && !Clashes(rows, order[n], r.ip)
  {
    hide Displaced, Clashes;
    var n := |order| - 1;
    LastWrite(rows, order, i);
    assert order == order[..n] + [order[n]];
    assert KeyOf(rows[i]) == KeyOf(stored[i]);
  }

  lemma LastWrite(rows: seq<Known>, order: seq<string>, i: nat)
    requires order != [] && i < |rows|
    ensures
      var n := |order| - 1;
      var own, clash := rows[i].subnet == order[n], Clashes(rows, order[n], rows[i].ip);
      Displaced(rows, order, i) <==> (!own && (Displaced(rows, order[..n], i) || clash))
  {
    hide Clashes;
    var n := |order| - 1;
    assert order[n..] == [order[n]];
    forall k | 0 <= k < n ensures order[k..] == order[..n][k..] + [order[n]] {
    }
    if rows[i].subnet != order[n] {
      forall k | 0 <= k < n ensures DisplacedBy(rows, order, i, k) <==> DisplacedBy(rows, order[..n], i, k) {
      }
      if k :| 0 <= k < n && DisplacedBy(rows, order[..n], i, k) { assert DisplacedBy(rows, order, i, k); }
      if Clashes(rows, order[n], rows[i].ip) { assert DisplacedBy(rows, order, i, n); }
    } else {
      forall k | 0 <= k < |order| ensures order[n] in order[k..] {
        assert order[k..][n - k] == order[n];
      }
    }
  }

  lemma {:induction false} RewriteLast(table: seq<Known>, rows: seq<Known>, order: seq<string>)
    requires order != []
    ensures
      var n := |order| - 1;
      RewriteAll(table, rows, order) == Rewrite(RewriteAll(table, rows, order[..n]), rows, order[n])
    decreases |order|
  {
    hide Rewrite;
    var n := |order| - 1;
    if n > 0 {
      RewriteLast(Rewrite(table, rows, order[0]), rows, order[1..]);
      assert order[1..][..n - 1] == order[..n][1..];
    } else {
      assert order[1..] == [] && order[..0] == [];
    }
  }

  /** With no address in two subnets nothing is displaced: every host stays, in its form. */
  lemma NothingDisplaced(rows: seq<Known>, order: seq<string>, i: nat)
    requires i < |rows|
    requires forall j :: 0 <= j < |rows| && rows[j].ip == rows[i].ip != "" ==> rows[j].subnet == rows[i].subnet
    ensures !Displaced(rows, order, i)
  {
    forall k | 0 <= k < |order| ensures !DisplacedBy(rows, order, i, k) {
      assert order[k] in order[k..];
    }
  }

  /** The row and the miss entry of one host are those of its verdict. */
  ghost predicate JudgedAs(row: Known, h: Known, misses: map<Key, (nat, Generation)>, before: map<Key, (nat, Generation)>,
                           macAlive: set<string>, generation: Generation)
  {
    var w := Verdict(h, before, macAlive, generation);
    row == h.(online := w.online) && Lookup(misses, KeyOf(h)) == w.miss
  }

  lemma JudgedMeans(row: Known, h: Known, misses: map<Key, (nat, Generation)>, before: map<Key, (nat, Generation)>,
                    macAlive: set<string>, generation: Generation)
    requires JudgedAs(row, h, misses, before, macAlive, generation)
    ensures
      var w := Verdict(h, before, macAlive, generation);
      row == h.(online := w.online) && Lookup(misses, KeyOf(h)) == w.miss
  {
  }

  lemma JudgedKept(row: Known, h: Known, misses: map<Key, (nat, Generation)>, misses': map<Key, (nat, Generation)>,
                   before: map<Key, (nat, Generation)>, macAlive: set<string>, generation: Generation)
    requires JudgedAs(row, h, misses, before, macAlive, generation) && Lookup(misses', KeyOf(h)) == Lookup(misses, KeyOf(h))
    ensures JudgedAs(row, h, misses', before, macAlive, generation)
  {
  }

  /** The loop over the hosts. */
  method JudgeAll(hosts: seq<Known>, before: map<Key, (nat, Generation)>, macAlive: set<string>, generation: Generation)
    returns (rows: seq<Known>, misses: map<Key, (nat, Generation)>, restored: nat, dropped: nat)
    requires UniqueKeys(hosts)
    ensures |rows| == |hosts|
    ensures forall i :: 0 <= i < |hosts| ==> JudgedAs(rows[i], hosts[i], misses, before, macAlive, generation)
    ensures restored == Turned(hosts, before, macAlive, generation, true)
    ensures dropped == Turned(hosts, before, macAlive, generation, false)
  {
    hide JudgeHost, JudgedAs, KeyOf, Lookup;
    rows, misses, restored, dropped := hosts, before, 0, 0;
    for i := 0 to |rows|
      invariant |rows| == |hosts|
      invariant forall j :: 0 <= j < i ==> JudgedAs(rows[j], hosts[j], misses, before, macAlive, generation)
      invariant forall j :: i <= j < |rows| ==>
        rows[j] == hosts[j] && Lookup(misses, KeyOf(hosts[j])) == Lookup(before, KeyOf(hosts[j]))
      invariant restored == Turned(hosts[..i], before, macAlive, generation, true)
      invariant dropped == Turned(hosts[..i], before, macAlive, generation, false)
    {
      assert hosts[..i + 1][..i] == hosts[..i];
      var h, key := rows[i], KeyOf(rows[i]);
      var verdict := Visit(h, Lookup(misses, key), macAlive, generation);
      if verdict.online && !h.online {
        restored := restored + 1;
      } else if h.online && !verdict.online {
        dropped := dropped + 1;
      }
      OtherKeys(misses, key, verdict.miss);
      var next := Recorded(misses, key, verdict.miss);
      forall j | 0 <= j < i ensures JudgedAs(rows[j], hosts[j], next, before, macAlive, generation) {
        JudgedKept(rows[j], hosts[j], misses, next, before, macAlive, generation);
      }
      JudgedNow(h, next, before, macAlive, generation, verdict);
      rows, misses := rows[i := h.(online := verdict.online)], next;
    }
    assert hosts[..|hosts|] == hosts;
  }

  lemma JudgedNow(h: Known, misses: map<Key, (nat, Generation)>, before: map<Key, (nat, Generation)>,
                  macAlive: set<string>, generation: Generation, w: Watch)
    requires w == JudgeHost(h, Lookup(before, KeyOf(h)), macAlive, generation) && Lookup(misses, KeyOf(h)) == w.miss
    ensures JudgedAs(h.(online := w.online), h, misses, before, macAlive, generation)
  {
  }

  /** The branches of the loop body. */
  method Visit(h: Known, miss: Option<(nat, Generation)>, macAlive: set<string>, generation: Generation) returns (w: Watch)
    ensures w == JudgeHost(h, miss, macAlive, generation)
  {
    w := Watch(h.online, miss);
    if h.mac == "" {
      return;
    }
    var alive := Lower(h.mac) in macAlive;
    if h.online {
      if alive {
        w := w.(miss := None);
      } else {
        var n, lastGen := 0, None;
        if miss.Some? {
          n, lastGen := miss.value.0, Some(miss.value.1);
        }
        if lastGen == Some(generation) {
          return;
        }
        n := n + 1;
        w := w.(miss := Some((n, generation)));
        if n >= MISS_THRESHOLD {
          w := Watch(false, None);
        }
      }
    } else if alive {
      w := Watch(true, None);
    }
  }

  // ---- Runs, seen from one host with a MAC ----

  /** What befalls the host: a call of the monitor that is skipped, or one that sees its MAC or not, in some
      generation, with the write going through or not; or a band scan that sets its flag and leaves the miss
      table alone. */
  datatype Call = Skipped | Looked(alive: bool, generation: Generation, stored: bool) | Scanned(online: bool)

  function After(w: Watch, call: Call): Watch {
    match call
    case Skipped => w
    case Scanned(online) => w.(online := online)
    case Looked(alive, generation, stored) =>
      var verdict := Judge(w, alive, generation);
      if stored then verdict else verdict.(online := w.online)
  }

  function WatchOf(h: Known, misses: map<Key, (nat, Generation)>): Watch { Watch(h.online, Lookup(misses, KeyOf(h))) }

  /** What MonitorKnownHosts makes of a host with a MAC is one step of its run. */
  lemma CallIsAfter(h: Known, misses: map<Key, (nat, Generation)>, macAlive: set<string>, generation: Generation,
                    stored: bool, h': Known, misses': map<Key, (nat, Generation)>)
    requires h.mac != ""
    requires
      var w := Verdict(h, misses, macAlive, generation);
      Lookup(misses', KeyOf(h')) == w.miss && h' == if stored then h.(online := w.online) else h
    ensures WatchOf(h', misses') == After(WatchOf(h, misses), Looked(Lower(h.mac) in macAlive, generation, stored))
  {
  }

  /** A host without a MAC is left alone. */
  lemma NoMacNoJudgement(h: Known, misses: map<Key, (nat, Generation)>, macAlive: set<string>, generation: Generation)
    requires h.mac == ""
    ensures Verdict(h, misses, macAlive, generation) == WatchOf(h, misses)
  {
  }

  /** The positions of the hosts that a call takes from one flag to the other. */
  function TurnedAt(hosts: seq<Known>, misses: map<Key, (nat, Generation)>, macAlive: set<string>, generation: Generation,
                    online: bool): set<int>
  {
    set i | 0 <= i < |hosts| && hosts[i].online != online &&
            Verdict(hosts[i], misses, macAlive, generation).online == online
  }

  /** The counts that a call reports. */
  lemma {:induction false} TurnedIs(hosts: seq<Known>, misses: map<Key, (nat, Generation)>, macAlive: set<string>,
                                    generation: Generation, online: bool)
    ensures Turned(hosts, misses, macAlive, generation, online) == |TurnedAt(hosts, misses, macAlive, generation, online)|
  {
    hide Verdict;
    if hosts != [] {
      var n := |hosts| - 1;
      TurnedIs(hosts[..n], misses, macAlive, generation, online);
      var own := if hosts[n].online != online && Verdict(hosts[n], misses, macAlive, generation).online == online then {n} else {};
      assert TurnedAt(hosts, misses, macAlive, generation, online) ==
        TurnedAt(hosts[..n], misses, macAlive, generation, online) + own;
    }
  }

  function Run(w: Watch, calls: seq<Call>): Watch {
    if calls == [] then w else After(Run(w, calls[..|calls| - 1]), calls[|calls| - 1])
  }

  predicate Missing(call: Call) { call.Looked? && !call.alive }

  predicate Seen(call: Call) { call.Looked? && call.alive }

  /** Call `s` of the run missed the MAC and no later one has seen it. */
  predicate MissedSince(calls: seq<Call>, s: int) {
    0 <= s < |calls| && Missing(calls[s]) && forall k :: s < k < |calls| ==> !Seen(calls[k])
  }

  const FRESH: Watch := Watch(true, None)

  /** A call that misses the MAC in another generation than that of call `s` while the host is online. */
  predicate SecondMiss(calls: seq<Call>, s: nat, k: nat)
    requires s < |calls| && calls[s].Looked? && k < |calls|
  {
    Missing(calls[k]) && calls[k].generation != calls[s].generation && Run(FRESH, calls[..k]).online
  }

  /** Call `s` is the miss that the table still holds: it came while the host was online with a clean slate,
      and since then the MAC was neither seen nor missed a second time. Scans in between do not matter. */
  predicate Held(calls: seq<Call>, s: int) {
    && 0 <= s < |calls| && Missing(calls[s])
    && Run(FRESH, calls[..s]) == FRESH
    && forall k :: s < k < |calls| ==> !Seen(calls[k]) && !SecondMiss(calls, s, k)
  }

  lemma HeldInit(calls: seq<Call>, s: nat)
    requires s + 1 < |calls| && calls[s].Looked?
    ensures
      var n := |calls| - 1;
      Held(calls, s) <==> Held(calls[..n], s) && !Seen(calls[n]) && !SecondMiss(calls, s, n)
  {
    hide Run;
    var n := |calls| - 1;
    var init := calls[..n];
    assert forall k :: 0 <= k < n ==> init[k] == calls[k];
    assert forall k :: 0 <= k < n ==> init[..k] == calls[..k];
    forall k | s < k < n ensures SecondMiss(init, s, k) <==> SecondMiss(calls, s, k) {
      assert init[..k] == calls[..k];
    }
    assert init[..s] == calls[..s];
  }

  /** The miss table holds one miss at most, and exactly such a one. */
  lemma {:induction false} MissHeldIff(calls: seq<Call>, g: Generation)
    ensures Run(FRESH, calls).miss == Some((1, g)) <==> exists s :: Held(calls, s) && calls[s].generation == g
    ensures Run(FRESH, calls).miss.Some? ==> Run(FRESH, calls).miss.value.0 == 1
  {
    if calls != [] {
      var n := |calls| - 1;
      var init, last := calls[..n], calls[n];
      forall h ensures Run(FRESH, init).miss == Some((1, h)) <==> exists s :: Held(init, s) && init[s].generation == h {
        MissHeldIff(init, h);
      }
      MissHeldIff(init, g);
      var v := Run(FRESH, init);
      if s :| Held(init, s) && init[s].generation == g {
        HeldInit(calls, s);
        assert v.miss == Some((1, g));
        assert Held(calls, s) ==> calls[s].generation == g;
      }
      if s :| Held(calls, s) && calls[s].generation == g {
        if s < n {
          HeldInit(calls, s);
          assert Held(init, s) && init[s].generation == g;
        }
      }
      if Missing(last) && v == FRESH && last.generation == g {
        assert Held(calls, n);
      }
    }
  }

  /** A monitor call puts a host offline exactly if it misses the MAC in another generation than that of the miss
      the table holds, and its write goes through. */
  lemma OfflineIff(calls: seq<Call>, last: Call)
    requires Run(FRESH, calls).online && last.Looked?
    ensures !After(Run(FRESH, calls), last).online <==>
      Missing(last) && last.stored && exists s :: Held(calls, s) && calls[s].generation != last.generation
  {
    hide Run;
    var w := Run(FRESH, calls);
    if s :| Held(calls, s) && calls[s].generation != last.generation {
      MissHeldIff(calls, calls[s].generation);
    }
    if w.miss.Some? {
      MissHeldIff(calls, w.miss.value.1);
    }
  }

  /** So never without an earlier call that missed it in a different generation, with no sighting by the monitor
      in between. */
  lemma OfflineNeedsTwoGenerations(calls: seq<Call>, last: Call)
    requires Run(FRESH, calls).online && !After(Run(FRESH, calls), last).online && last.Looked?
    ensures Missing(last) && last.stored
    ensures exists s :: MissedSince(calls, s) && calls[s].generation != last.generation
  {
    hide Run, After;
    OfflineIff(calls, last);
    var s :| Held(calls, s) && calls[s].generation != last.generation;
    assert MissedSince(calls, s);
  }

  /** ... and as long as writes go through, it goes offline at the first such call. */
  lemma TwoGenerationsGoOffline(calls: seq<Call>, last: Call, s: int)
    requires forall k :: 0 <= k < |calls| && calls[k].Looked? ==> calls[k].stored
    requires forall k :: 0 <= k <= |calls| ==> Run(FRESH, calls[..k]).online
    requires MissedSince(calls, s) && Missing(last) && last.stored && calls[s].generation != last.generation
    ensures !After(Run(FRESH, calls), last).online
  {
    MissPersists(calls, s);
    assert calls[..|calls|] == calls;
  }

  lemma {:induction false} MissPersists(calls: seq<Call>, s: int)
    requires forall k :: 0 <= k < |calls| && calls[k].Looked? ==> calls[k].stored
    requires forall k :: 0 <= k <= |calls| ==> Run(FRESH, calls[..k]).online
    requires MissedSince(calls, s)
    ensures Run(FRESH, calls).miss == Some((1, calls[s].generation))
  {
    var init, last := calls[..|calls| - 1], calls[|calls| - 1];
    assert calls[..|calls|] == calls;
    forall k | 0 <= k <= |init| ensures Run(FRESH, init[..k]).online {
      assert init[..k] == calls[..k];
    }
    assert init[..|init|] == init;
    var v := Run(FRESH, init);
    if v.miss.Some? { MissHeldIff(init, v.miss.value.1); }
    if s < |init| {
      assert MissedSince(init, s);
      MissPersists(init, s);
    }
  }

  /** Looking at one generation of snapshots any number of times is no evidence: no such look puts the host
      offline. */
  lemma OneGenerationIsNotEnough(calls: seq<Call>, last: Call, generation: Generation)
    requires forall k :: 0 <= k < |calls| && Missing(calls[k]) ==> calls[k].generation == generation
    requires last.Looked? && (Missing(last) ==> last.generation == generation) && Run(FRESH, calls).online
    ensures After(Run(FRESH, calls), last).online
  {
    hide Run, After;
    OfflineIff(calls, last);
  }

  /** A call that sees the MAC and whose write goes through leaves the host online with a clean slate. */
  lemma SightingRestores(calls: seq<Call>, generation: Generation)
    ensures After(Run(FRESH, calls), Looked(true, generation, true)) == FRESH
  {
  }

  /** A band scan does not wipe the slate: missed, then found by a scan, then missed in the next generation, the
      host goes offline. */
  lemma ScanBetweenMisses(g: Generation, h: Generation)
    requires g != h
    ensures !Run(FRESH, [Looked(false, g, true), Scanned(true), Looked(false, h, true)]).online
  {
    var a, b, c := Looked(false, g, true), Scanned(true), Looked(false, h, true);
    var calls := [a, b, c];
    assert calls[..2] == [a, b] && [a, b][..1] == [a] && [a][..0] == [];
    assert Run(FRESH, []) == FRESH;
    assert Run(FRESH, [a]) == Watch(true, Some((1, g)));
    assert Run(FRESH, [a, b]) == Watch(true, Some((1, g)));
  }
}

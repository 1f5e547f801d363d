/** The `facility_hosts` table and its writers in core/db.py. SQL is replaced by the effect of each
    statement on the rows, kept in rowid order. */
module FacilityTable {
  import opened Wrappers
  import opened Text

  /** Where a device was seen attached. */
  datatype Link = Link(switchId: Option<int>, switchName: Option<string>, port: Option<string>, direct: bool,
                       via: Option<string>, desc: Option<string>)

  datatype Host = Host(subnet: Option<string>, ip: string, mac: string, online: bool, link: Link)

  datatype Row = Row(host: Host, updated: int)

  // ---- Statements ----

  function Filter(rows: seq<Row>, keep: Row -> bool): seq<Row> {
    if rows == [] then []
    else (if keep(rows[0]) then [rows[0]] else []) + Filter(rows[1..], keep)
  }

  function IfNull(s: Option<string>): string { if s.Some? then s.value else "" }

  function DeleteSubnet(rows: seq<Row>, subnet: string): seq<Row> {
    Filter(rows, (r: Row) => r.host.subnet != Some(subnet))
  }

  /** `DELETE ... WHERE ip=? AND IFNULL(subnet,'')<>IFNULL(?,'')` for each host with an address. */
  function DropOtherSubnets(rows: seq<Row>, hosts: seq<Host>): seq<Row>
    decreases |hosts|
  {
    if hosts == [] then rows
    else
      var h := hosts[0];
      var left := if h.ip == "" then rows
                  else Filter(rows, (r: Row) => !(r.host.ip == h.ip && IfNull(r.host.subnet) != IfNull(h.subnet)));
      DropOtherSubnets(left, hosts[1..])
  }

  predicate SameKey(a: Host, b: Host) { a.subnet.Some? && a.subnet == b.subnet && a.ip == b.ip }

  /** `INSERT OR REPLACE` under `UNIQUE(subnet, ip)`; NULL subnets never collide. */
  function Upsert(rows: seq<Row>, h: Host, now: int): seq<Row> {
    Filter(rows, (r: Row) => !SameKey(h, r.host)) + [Row(h, now)]
  }

  function UpsertAll(rows: seq<Row>, hosts: seq<Host>, now: int): seq<Row>
    decreases |hosts|
  {
    if hosts == [] then rows else UpsertAll(Upsert(rows, hosts[0], now), hosts[1..], now)
  }

  /** `_drop_registered_devices`: managed devices and load-balancer addresses are not facility hosts. */
  function DropRegistered(hosts: seq<Host>, known: set<string>): (kept: seq<Host>)
    ensures forall k :: 0 <= k < |kept| ==> kept[k] in hosts && Strip(kept[k].ip) !in known
    ensures forall h :: h in hosts && Strip(h.ip) !in known ==> h in kept
  {
    if hosts == [] then []
    else (if Strip(hosts[0].ip) in known then [] else [hosts[0]]) + DropRegistered(hosts[1..], known)
  }

  function Saved(rows: seq<Row>, hosts: seq<Host>, known: set<string>, now: int): seq<Row> {
    var kept := DropRegistered(hosts, known);
    UpsertAll(DropOtherSubnets(rows, kept), kept, now)
  }

  function Replaced(rows: seq<Row>, subnet: string, hosts: seq<Host>, known: set<string>, now: int): seq<Row> {
    Saved(DeleteSubnet(rows, subnet), hosts, known, now)
  }

  /** Row `j` is the one to keep of two rows for one address: later update, then later rowid. */
  predicate Later(rows: seq<Row>, i: nat, j: nat)
    requires i < |rows| && j < |rows|
  {
    rows[j].updated > rows[i].updated || (rows[j].updated == rows[i].updated && j > i)
  }

  predicate Latest(rows: seq<Row>, i: nat)
    requires i < |rows|
  {
    rows[i].host.ip == "" || forall j :: 0 <= j < |rows| && rows[j].host.ip == rows[i].host.ip ==> !Later(rows, i, j)
  }

  /** `dedupe_facility_by_ip` up to row `n`. */
  function Deduped(rows: seq<Row>, n: nat): seq<Row>
    requires n <= |rows|
  {
    if n == 0 then [] else Deduped(rows, n - 1) + (if Latest(rows, n - 1) then [rows[n - 1]] else [])
  }

  class FacilityDb {
    var rows: seq<Row>
    /** Addresses of managed devices and of virtual servers. */
    var known: set<string>

    constructor (known: set<string>)
      ensures rows == [] && this.known == known
    {
      rows, this.known := [], known;
    }

    method SaveFacilityHosts(hosts: seq<Host>, now: int)
      modifies this`rows
      ensures rows == Saved(old(rows), hosts, known, now)
    {
      var kept := DropRegistered(hosts, known);
      var table := DropOtherSubnets(rows, kept);
      for k := 0 to |kept|
        invariant UpsertAll(DropOtherSubnets(old(rows), kept), kept, now) == UpsertAll(table, kept[k..], now)
      {
        table := Upsert(table, kept[k], now);
      }
      rows := table;
    }

    method ReplaceFacilitySubnet(subnet: string, hosts: seq<Host>, now: int)
      modifies this`rows
      ensures rows == Replaced(old(rows), subnet, hosts, known, now)
    {
      var kept := DropRegistered(hosts, known);
      var table := DropOtherSubnets(DeleteSubnet(rows, subnet), kept);
      for k := 0 to |kept|
        invariant UpsertAll(DropOtherSubnets(DeleteSubnet(old(rows), subnet), kept), kept, now) ==
                  UpsertAll(table, kept[k..], now)
      {
        table := Upsert(table, kept[k], now);
      }
      rows := table;
    }

    method DedupeFacilityByIp() returns (removed: int)
      modifies this`rows
      ensures rows == Deduped(old(rows), |old(rows)|) && removed == |old(rows)| - |rows|
      ensures OneRowPerIp(rows)
    {
      var n := |rows|;
      DedupeEstablishes(rows);
      rows := Deduped(rows, |rows|);
      removed := n - |rows|;
    }
  }

  // ---- At most one row per address ----

  function CountIp(rows: seq<Row>, ip: string): nat {
    if rows == [] then 0 else (if rows[0].host.ip == ip then 1 else 0) + CountIp(rows[1..], ip)
  }

  ghost predicate OneRowPerIp(rows: seq<Row>) { forall ip :: ip != "" ==> CountIp(rows, ip) <= 1 }

  lemma {:induction false} FilterCount(rows: seq<Row>, keep: Row -> bool, ip: string)
    ensures CountIp(Filter(rows, keep), ip) <= CountIp(rows, ip)
    ensures (forall r :: r in rows && r.host.ip == ip ==> !keep(r)) ==> CountIp(Filter(rows, keep), ip) == 0
    ensures (forall r :: r in rows && r.host.ip == ip ==> keep(r)) ==> CountIp(Filter(rows, keep), ip) == CountIp(rows, ip)
  {
    if rows != [] {
      FilterCount(rows[1..], keep, ip);
      if keep(rows[0]) {
        assert Filter(rows, keep)[1..] == Filter(rows[1..], keep);
      } else {
        assert Filter(rows, keep) == Filter(rows[1..], keep);
      }
    }
  }

  lemma {:induction false} FilterMembers(rows: seq<Row>, keep: Row -> bool)
    ensures forall r :: r in Filter(rows, keep) <==> r in rows && keep(r)
  {
    if rows != [] {
      FilterMembers(rows[1..], keep);
      assert rows == [rows[0]] + rows[1..];
    }
  }

  lemma {:induction false} CountAppend(rows: seq<Row>, r: Row, ip: string)
    ensures CountIp(rows + [r], ip) == CountIp(rows, ip) + (if r.host.ip == ip then 1 else 0)
  {
    if rows == [] {
      assert (rows + [r])[1..] == [];
    } else {
      CountAppend(rows[1..], r, ip);
      assert (rows + [r])[1..] == rows[1..] + [r];
    }
  }

  lemma {:induction false} CountMember(rows: seq<Row>, i: nat, j: nat, ip: string)
    requires i < |rows| && j < |rows| && rows[i].host.ip == rows[j].host.ip == ip
    ensures CountIp(rows, ip) >= if i == j then 1 else 2
  {
    if i > 0 && j > 0 {
      CountMember(rows[1..], i - 1, j - 1, ip);
    } else if i > 0 {
      CountMember(rows[1..], i - 1, i - 1, ip);
    } else if j > 0 {
      CountMember(rows[1..], j - 1, j - 1, ip);
    }
  }

  /** Every row for `h`'s address is about to be replaced by `h`. */
  ghost predicate Replaceable(rows: seq<Row>, h: Host) {
    h.subnet.Some? && forall r :: r in rows && r.host.ip == h.ip ==> r.host.subnet == h.subnet
  }

  lemma UpsertKeeps(rows: seq<Row>, h: Host, now: int)
    requires OneRowPerIp(rows) && (h.ip != "" ==> Replaceable(rows, h))
    ensures OneRowPerIp(Upsert(rows, h, now))
  {
    var keep := (r: Row) => !SameKey(h, r.host);
    forall ip | ip != "" ensures CountIp(Upsert(rows, h, now), ip) <= 1 {
      FilterCount(rows, keep, ip);
      CountAppend(Filter(rows, keep), Row(h, now), ip);
    }
  }

  lemma UpsertReplaceable(rows: seq<Row>, h: Host, now: int, g: Host)
    requires Replaceable(rows, g) && (g.ip == h.ip ==> g.subnet == h.subnet)
    ensures Replaceable(Upsert(rows, h, now), g)
  {
    FilterMembers(rows, (r: Row) => !SameKey(h, r.host));
  }

  lemma {:induction false} UpsertAllKeeps(rows: seq<Row>, hosts: seq<Host>, now: int)
    requires OneRowPerIp(rows) && forall k :: 0 <= k < |hosts| && hosts[k].ip != "" ==> Replaceable(rows, hosts[k])
    requires Consistent(hosts)
    ensures OneRowPerIp(UpsertAll(rows, hosts, now))
    decreases |hosts|
  {
    if hosts != [] {
      UpsertKeeps(rows, hosts[0], now);
      forall k | 0 <= k < |hosts[1..]| && hosts[1..][k].ip != ""
        ensures Replaceable(Upsert(rows, hosts[0], now), hosts[1..][k])
      {
        UpsertReplaceable(rows, hosts[0], now, hosts[k + 1]);
      }
      UpsertAllKeeps(Upsert(rows, hosts[0], now), hosts[1..], now);
    }
  }

  /** No two hosts of a batch put one address into two subnets. Distinct addresses, and a batch of one subnet, are
      special cases. */
  ghost predicate Consistent(hosts: seq<Host>) {
    forall i, j :: 0 <= i < j < |hosts| && hosts[i].ip == hosts[j].ip != "" ==> hosts[i].subnet == hosts[j].subnet
  }

  lemma {:induction false} DropOtherKeeps(rows: seq<Row>, hosts: seq<Host>)
    requires OneRowPerIp(rows)
    ensures OneRowPerIp(DropOtherSubnets(rows, hosts))
    ensures forall r :: r in DropOtherSubnets(rows, hosts) ==> r in rows
    ensures forall r, k ::
      r in DropOtherSubnets(rows, hosts) && 0 <= k < |hosts| && hosts[k].ip != "" && r.host.ip == hosts[k].ip ==>
      IfNull(r.host.subnet) == IfNull(hosts[k].subnet)
    decreases |hosts|
  {
    if hosts != [] {
      var h := hosts[0];
      var keep := (r: Row) => !(r.host.ip == h.ip && IfNull(r.host.subnet) != IfNull(h.subnet));
      var left := if h.ip == "" then rows else Filter(rows, keep);
      FilterMembers(rows, keep);
      forall ip | ip != "" ensures CountIp(left, ip) <= 1 { FilterCount(rows, keep, ip); }
      DropOtherKeeps(left, hosts[1..]);
      assert DropOtherSubnets(rows, hosts) == DropOtherSubnets(left, hosts[1..]);
      forall r, k | r in DropOtherSubnets(rows, hosts) && 0 <= k < |hosts| && hosts[k].ip != "" && r.host.ip == hosts[k].ip
        ensures IfNull(r.host.subnet) == IfNull(hosts[k].subnet)
      {
        if k > 0 { assert hosts[k] == hosts[1..][k - 1]; }
      }
    }
  }

  /** What every caller hands over: with an address, a subnet that is neither NULL nor empty. */
  ghost predicate Proper(hosts: seq<Host>) {
    forall k :: 0 <= k < |hosts| && hosts[k].ip != "" ==> IfNull(hosts[k].subnet) != ""
  }

  /** Saving keeps the table at one row per address exactly when the batch does not contradict itself. */
  lemma SavedKeepsIff(rows: seq<Row>, hosts: seq<Host>, known: set<string>, now: int)
    requires OneRowPerIp(rows) && Proper(hosts)
    ensures OneRowPerIp(Saved(rows, hosts, known, now)) <==> Consistent(DropRegistered(hosts, known))
  {
    var kept := DropRegistered(hosts, known);
    assert Proper(kept) by {
      forall k | 0 <= k < |kept| && kept[k].ip != "" ensures IfNull(kept[k].subnet) != "" {
        var i :| 0 <= i < |hosts| && hosts[i] == kept[k];
      }
    }
    DropOtherKeeps(rows, kept);
    var table := DropOtherSubnets(rows, kept);
    if Consistent(kept) {
      forall k | 0 <= k < |kept| && kept[k].ip != "" ensures Replaceable(table, kept[k]) {
      }
      UpsertAllKeeps(table, kept, now);
    }
    if OneRowPerIp(Saved(rows, hosts, known, now)) {
      forall i, j | 0 <= i < j < |kept| && kept[i].ip == kept[j].ip != "" ensures kept[i].subnet == kept[j].subnet {
        UpsertedStay(table, kept, now, i);
        UpsertedStay(table, kept, now, j);
        var result := UpsertAll(table, kept, now);
        var a :| 0 <= a < |result| && result[a].host.ip == kept[i].ip && result[a].host.subnet == kept[i].subnet;
        var b :| 0 <= b < |result| && result[b].host.ip == kept[j].ip && result[b].host.subnet == kept[j].subnet;
        CountMember(result, a, b, kept[i].ip);
      }
    }
  }

  /** `replace_facility_subnet` with such a batch keeps one row per address. */
  lemma ReplacedKeeps(rows: seq<Row>, subnet: string, hosts: seq<Host>, known: set<string>, now: int)
    requires OneRowPerIp(rows) && Proper(hosts) && Consistent(DropRegistered(hosts, known))
    ensures OneRowPerIp(Replaced(rows, subnet, hosts, known, now))
  {
    var keep := (r: Row) => r.host.subnet != Some(subnet);
    forall ip | ip != "" ensures CountIp(DeleteSubnet(rows, subnet), ip) <= 1 { FilterCount(rows, keep, ip); }
    SavedKeepsIff(DeleteSubnet(rows, subnet), hosts, known, now);
  }

  ghost predicate HasKey(rows: seq<Row>, h: Host) {
    exists a :: 0 <= a < |rows| && rows[a].host.ip == h.ip && rows[a].host.subnet == h.subnet
  }

  lemma UpsertHasKey(rows: seq<Row>, g: Host, now: int, h: Host)
    requires g == h || HasKey(rows, h)
    ensures HasKey(Upsert(rows, g, now), h)
  {
    var keep := (r: Row) => !SameKey(g, r.host);
    var result := Upsert(rows, g, now);
    FilterMembers(rows, keep);
    if g.ip == h.ip && g.subnet == h.subnet {
      assert result[|result| - 1] == Row(g, now);
    } else {
      var a :| 0 <= a < |rows| && rows[a].host.ip == h.ip && rows[a].host.subnet == h.subnet;
      assert rows[a] in Filter(rows, keep);
      var b :| 0 <= b < |Filter(rows, keep)| && Filter(rows, keep)[b] == rows[a];
      assert result[b] == rows[a];
    }
  }

  lemma {:induction false} KeyStays(rows: seq<Row>, hosts: seq<Host>, now: int, h: Host)
    requires HasKey(rows, h)
    ensures HasKey(UpsertAll(rows, hosts, now), h)
    decreases |hosts|
  {
    if hosts != [] {
      UpsertHasKey(rows, hosts[0], now, h);
      KeyStays(Upsert(rows, hosts[0], now), hosts[1..], now, h);
    }
  }

  lemma {:induction false} UpsertedStay(rows: seq<Row>, hosts: seq<Host>, now: int, k: nat)
    requires k < |hosts|
    ensures HasKey(UpsertAll(rows, hosts, now), hosts[k])
    decreases |hosts|
  {
    UpsertHasKey(rows, hosts[0], now, hosts[0]);
    if k == 0 {
      KeyStays(Upsert(rows, hosts[0], now), hosts[1..], now, hosts[0]);
    } else {
      UpsertedStay(Upsert(rows, hosts[0], now), hosts[1..], now, k - 1);
    }
  }

  // ---- The table's key ----

  ghost predicate UniqueKeys(rows: seq<Row>) {
    forall i, j :: 0 <= i < j < |rows| ==> !SameKey(rows[i].host, rows[j].host)
  }

  lemma {:induction false} FilterUnique(rows: seq<Row>, keep: Row -> bool)
    requires UniqueKeys(rows)
    ensures UniqueKeys(Filter(rows, keep))
  {
    if rows != [] {
      var rest := Filter(rows[1..], keep);
      FilterUnique(rows[1..], keep);
      FilterMembers(rows[1..], keep);
      forall j | 0 <= j < |rest| ensures !SameKey(rows[0].host, rest[j].host) {
        assert rest[j] in rows[1..];
        var i :| 0 <= i < |rows[1..]| && rows[1..][i] == rest[j];
        assert !SameKey(rows[0].host, rows[i + 1].host);
      }
    }
  }

  lemma {:induction false} UpsertAllUnique(rows: seq<Row>, hosts: seq<Host>, now: int)
    requires UniqueKeys(rows)
    ensures UniqueKeys(UpsertAll(rows, hosts, now))
    decreases |hosts|
  {
    if hosts != [] {
      var keep := (r: Row) => !SameKey(hosts[0], r.host);
      FilterUnique(rows, keep);
      FilterMembers(rows, keep);
      var others := Filter(rows, keep);
      forall i | 0 <= i < |others| ensures !SameKey(others[i].host, hosts[0]) {
        assert others[i] in others;
      }
      assert Upsert(rows, hosts[0], now) == others + [Row(hosts[0], now)];
      UpsertAllUnique(Upsert(rows, hosts[0], now), hosts[1..], now);
    }
  }

  lemma {:induction false} DropOtherUnique(rows: seq<Row>, hosts: seq<Host>)
    requires UniqueKeys(rows)
    ensures UniqueKeys(DropOtherSubnets(rows, hosts))
    decreases |hosts|
  {
    if hosts != [] {
      var h := hosts[0];
      var keep := (r: Row) => !(r.host.ip == h.ip && IfNull(r.host.subnet) != IfNull(h.subnet));
      var left := if h.ip == "" then rows else Filter(rows, keep);
      FilterUnique(rows, keep);
      DropOtherUnique(left, hosts[1..]);
      assert DropOtherSubnets(rows, hosts) == DropOtherSubnets(left, hosts[1..]);
    }
  }

  /** Replacing a subnet keeps what the unique key demands of the table. */
  lemma ReplacedUnique(rows: seq<Row>, subnet: string, hosts: seq<Host>, known: set<string>, now: int)
    requires UniqueKeys(rows)
    ensures UniqueKeys(Replaced(rows, subnet, hosts, known, now))
  {
    hide UniqueKeys, UpsertAll, DropOtherSubnets;
    var kept := DropRegistered(hosts, known);
    FilterUnique(rows, (r: Row) => r.host.subnet != Some(subnet));
    DropOtherUnique(DeleteSubnet(rows, subnet), kept);
    UpsertAllUnique(DropOtherSubnets(DeleteSubnet(rows, subnet), kept), kept, now);
  }

  // ---- Where rows come from ----

  lemma {:induction false} UpsertAllOrigin(rows: seq<Row>, hosts: seq<Host>, now: int)
    ensures forall r :: r in UpsertAll(rows, hosts, now) ==> r in rows || (r.host in hosts && r.updated == now)
    decreases |hosts|
  {
    if hosts != [] {
      FilterMembers(rows, (r: Row) => !SameKey(hosts[0], r.host));
      UpsertAllOrigin(Upsert(rows, hosts[0], now), hosts[1..], now);
    }
  }

  predicate DroppedBy(r: Row, h: Host) { r.host.ip == h.ip != "" && IfNull(r.host.subnet) != IfNull(h.subnet) }

  ghost predicate Dropped(r: Row, hosts: seq<Host>) { exists h :: h in hosts && DroppedBy(r, h) }

  lemma {:induction false} DropOtherIff(rows: seq<Row>, hosts: seq<Host>)
    ensures forall r :: r in DropOtherSubnets(rows, hosts) <==> r in rows && !Dropped(r, hosts)
    decreases |hosts|
  {
    if hosts != [] {
      hide Filter, IfNull;
      var h, rest := hosts[0], hosts[1..];
      var keep := (r: Row) => !(r.host.ip == h.ip && IfNull(r.host.subnet) != IfNull(h.subnet));
      var left := if h.ip == "" then rows else Filter(rows, keep);
      FilterMembers(rows, keep);
      DropOtherIff(left, rest);
      assert DropOtherSubnets(rows, hosts) == DropOtherSubnets(left, rest);
      forall r ensures Dropped(r, hosts) <==> DroppedBy(r, h) || Dropped(r, rest) {
        assert hosts == [h] + rest;
        if DroppedBy(r, h) { assert h in hosts; }
      }
      assert forall r :: r in left <==> r in rows && !DroppedBy(r, h);
    }
  }

  /** A write never inserts a managed device or a virtual server: each row after it was there before or
      is an unregistered host of the batch. */
  lemma SavedOrigin(rows: seq<Row>, hosts: seq<Host>, known: set<string>, now: int)
    ensures forall r :: r in Saved(rows, hosts, known, now) ==>
      r in rows || (r.host in hosts && r.updated == now && Strip(r.host.ip) !in known)
  {
    var kept := DropRegistered(hosts, known);
    UpsertAllOrigin(DropOtherSubnets(rows, kept), kept, now);
    DropOtherIff(rows, kept);
  }

  /** After a subnet is replaced, its rows are hosts of the batch and nothing else. */
  lemma ReplacedOrigin(rows: seq<Row>, subnet: string, hosts: seq<Host>, known: set<string>, now: int)
    ensures forall r :: r in Replaced(rows, subnet, hosts, known, now) && r.host.subnet == Some(subnet) ==>
      r.host in hosts && Strip(r.host.ip) !in known
  {
    FilterMembers(rows, (r: Row) => r.host.subnet != Some(subnet));
    SavedOrigin(DeleteSubnet(rows, subnet), hosts, known, now);
  }

  /** ... and each unregistered one of them. */
  lemma ReplacedHolds(rows: seq<Row>, subnet: string, hosts: seq<Host>, known: set<string>, now: int, h: Host)
    requires h in hosts && Strip(h.ip) !in known && h.subnet == Some(subnet)
    requires forall g :: g in hosts && g.ip == h.ip ==> g == h
    ensures exists r :: r in Replaced(rows, subnet, hosts, known, now) && r.host == h
  {
    hide UpsertAll, DropOtherSubnets, DeleteSubnet, Strip;
    var kept := DropRegistered(hosts, known);
    var k :| 0 <= k < |kept| && kept[k] == h;
    var result := Replaced(rows, subnet, hosts, known, now);
    UpsertedStay(DropOtherSubnets(DeleteSubnet(rows, subnet), kept), kept, now, k);
    var a :| 0 <= a < |result| && result[a].host.ip == h.ip && result[a].host.subnet == h.subnet;
    ReplacedOrigin(rows, subnet, hosts, known, now);
    assert result[a] in result && result[a].host in hosts;
  }

  // ---- The rows of other subnets ----

  /** A host of the batch, for replacing `subnet`, has the address of a row of another subnet. */
  ghost predicate TakenOver(r: Row, subnet: string, hosts: seq<Host>, known: set<string>) {
    && r.host.ip != "" && IfNull(r.host.subnet) != subnet && Strip(r.host.ip) !in known
    && exists h :: h in hosts && h.ip == r.host.ip
  }

  lemma {:induction false} UpsertAllOthers(rows: seq<Row>, hosts: seq<Host>, now: int, subnet: string)
    requires forall h :: h in hosts ==> h.subnet == Some(subnet)
    ensures forall r: Row :: r.host.subnet != Some(subnet) ==> (r in UpsertAll(rows, hosts, now) <==> r in rows)
    decreases |hosts|
  {
    if hosts != [] {
      FilterMembers(rows, (r: Row) => !SameKey(hosts[0], r.host));
      UpsertAllOthers(Upsert(rows, hosts[0], now), hosts[1..], now, subnet);
    }
  }

  /** Of the rows of other subnets, replacing a subnet deletes those whose address it takes over, and no more. */
  lemma ReplacedOthers(rows: seq<Row>, subnet: string, hosts: seq<Host>, known: set<string>, now: int)
    requires forall h :: h in hosts ==> h.subnet == Some(subnet)
    ensures forall r: Row :: r.host.subnet != Some(subnet) ==>
      (r in Replaced(rows, subnet, hosts, known, now) <==> r in rows && !TakenOver(r, subnet, hosts, known))
  {
    hide UpsertAll, DropOtherSubnets, Strip;
    var kept := DropRegistered(hosts, known);
    var others := DeleteSubnet(rows, subnet);
    FilterMembers(rows, (r: Row) => r.host.subnet != Some(subnet));
    DropOtherIff(others, kept);
    UpsertAllOthers(DropOtherSubnets(others, kept), kept, now, subnet);
    forall r: Row ensures Dropped(r, kept) <==> TakenOver(r, subnet, hosts, known) {
      if TakenOver(r, subnet, hosts, known) {
        var h :| h in hosts && h.ip == r.host.ip;
        var k :| 0 <= k < |kept| && kept[k] == h;
      }
    }
  }

  // ---- Deduplication ----

  lemma {:induction false} DedupedMembers(rows: seq<Row>, n: nat)
    requires n <= |rows|
    ensures forall r :: r in Deduped(rows, n) <==> exists i :: 0 <= i < n && rows[i] == r && Latest(rows, i)
  {
    if n > 0 {
      DedupedMembers(rows, n - 1);
    }
  }

  lemma {:induction false} DedupedCount(rows: seq<Row>, n: nat, ip: string)
    requires n <= |rows| && ip != ""
    ensures CountIp(Deduped(rows, n), ip) <= 1
    ensures (forall i :: 0 <= i < n && Latest(rows, i) ==> rows[i].host.ip != ip) ==> CountIp(Deduped(rows, n), ip) == 0
  {
    if n > 0 {
      DedupedCount(rows, n - 1, ip);
      if Latest(rows, n - 1) {
        CountAppend(Deduped(rows, n - 1), rows[n - 1], ip);
        if rows[n - 1].host.ip == ip {
          forall i | 0 <= i < n - 1 && Latest(rows, i) ensures rows[i].host.ip != ip {
            assert Later(rows, i, n - 1) || Later(rows, n - 1, i);
          }
        }
      } else {
        assert Deduped(rows, n) == Deduped(rows, n - 1);
      }
    }
  }

  lemma {:induction false} LatestExists(rows: seq<Row>, i: nat, fuel: nat) returns (j: nat)
    requires i < |rows| && rows[i].host.ip != ""
    requires fuel == Laters(rows, i, |rows|)
    ensures j < |rows| && Latest(rows, j) && rows[j].host.ip == rows[i].host.ip
    ensures j == i || Later(rows, i, j)
    decreases fuel
  {
    if Latest(rows, i) {
      j := i;
    } else {
      var k :| 0 <= k < |rows| && rows[k].host.ip == rows[i].host.ip && Later(rows, i, k);
      FewerLaters(rows, i, k, |rows|);
      j := LatestExists(rows, k, Laters(rows, k, |rows|));
    }
  }

  /** How many of the first `n` rows come later than row `i`. */
  function Laters(rows: seq<Row>, i: nat, n: nat): nat
    requires i < |rows| && n <= |rows|
  {
    if n == 0 then 0 else Laters(rows, i, n - 1) + (if Later(rows, i, n - 1) then 1 else 0)
  }

  lemma {:induction false} FewerLaters(rows: seq<Row>, i: nat, k: nat, n: nat)
    requires i < |rows| && k < |rows| && n <= |rows| && Later(rows, i, k)
    ensures Laters(rows, k, n) <= Laters(rows, i, n) && (k < n ==> Laters(rows, k, n) < Laters(rows, i, n))
  {
    if n > 0 { FewerLaters(rows, i, k, n - 1); }
  }

  /** From any table at all: afterwards one row per address, each address still there with a row that no
      other row of that address was updated after, and rows without an address untouched. */
  lemma DedupeEstablishes(rows: seq<Row>)
    ensures OneRowPerIp(Deduped(rows, |rows|))
    ensures forall r :: r in Deduped(rows, |rows|) ==> r in rows
    ensures forall i :: 0 <= i < |rows| && rows[i].host.ip == "" ==> rows[i] in Deduped(rows, |rows|)
    ensures forall i :: 0 <= i < |rows| && rows[i].host.ip != "" ==>
      exists r :: r in Deduped(rows, |rows|) && r.host.ip == rows[i].host.ip && r.updated >= rows[i].updated
    ensures forall j :: 0 <= j < |rows| && Newest(rows, j) ==> rows[j] in Deduped(rows, |rows|)
  {
    hide Latest, Deduped, CountIp, Newest;
    forall j | 0 <= j < |rows| && Newest(rows, j) ensures rows[j] in Deduped(rows, |rows|) {
      NewestIsLatest(rows, j);
      DedupedMembers(rows, |rows|);
    }
    forall ip | ip != "" ensures CountIp(Deduped(rows, |rows|), ip) <= 1 {
      DedupedCount(rows, |rows|, ip);
    }
    DedupedMembers(rows, |rows|);
    forall i | 0 <= i < |rows| && rows[i].host.ip == "" ensures rows[i] in Deduped(rows, |rows|) {
      NoAddressIsLatest(rows, i);
    }
    forall i | 0 <= i < |rows| && rows[i].host.ip != ""
      ensures exists r :: r in Deduped(rows, |rows|) && r.host.ip == rows[i].host.ip && r.updated >= rows[i].updated
    {
      var j := LatestExists(rows, i, Laters(rows, i, |rows|));
      assert rows[j] in Deduped(rows, |rows|);
    }
  }

  /** Every other row of the address was updated before it, or at the same time and has a lower row id. */
  ghost predicate Newest(rows: seq<Row>, j: nat)
    requires j < |rows|
  {
    forall i :: 0 <= i < |rows| && i != j && rows[i].host.ip == rows[j].host.ip ==>
      rows[i].updated < rows[j].updated || (rows[i].updated == rows[j].updated && i < j)
  }

  lemma NewestIsLatest(rows: seq<Row>, j: nat)
    requires j < |rows| && Newest(rows, j)
    ensures Latest(rows, j)
  {
  }

  lemma NoAddressIsLatest(rows: seq<Row>, i: nat)
    requires i < |rows| && rows[i].host.ip == ""
    ensures Latest(rows, i)
  {
  }
}

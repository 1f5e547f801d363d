/** The band scan of core/facility.py after the ping loop: the merge of its outcome with the stored hosts
    (`_apply_scan`), and the write to the table. */
module FacilityScan {
  import opened Wrappers
  import opened Text
  import opened Attachment
  import opened BandSweep
  import opened SweepScript
  import opened FacilityTable
  import Decimal

  // ---- The merge ----

  datatype Event = NewDevice(ip: string) | DeviceOnline(ip: string) | DeviceMoved(ip: string) | DeviceOffline(ip: string)

  function Find(rows: seq<Host>, ip: string): Option<Host> {
    if rows == [] then None else if rows[0].ip == ip then Some(rows[0]) else Find(rows[1..], ip)
  }

  predicate Has(hosts: seq<Host>, ip: string) { Find(hosts, ip).Some? }

  ghost predicate DistinctIps(hosts: seq<Host>) { forall i, j :: 0 <= i < j < |hosts| ==> hosts[i].ip != hosts[j].ip }

  predicate MacAlive(h: Host, macAlive: set<string>) { h.mac != "" && Lower(h.mac) in macAlive }

  /** What becomes of a stored host that did not answer. */
  function Kept(h: Host, scanned: Option<set<string>>, macAlive: set<string>): Host {
    if !Judged(scanned, h.ip) then h
    else if MacAlive(h, macAlive) then h.(online := true)
    else h.(online := false)
  }

  function KeptAll(existing: seq<Host>, byIp: seq<Host>, scanned: Option<set<string>>, macAlive: set<string>): seq<Host> {
    if existing == [] then []
    else KeptOne(existing[0], byIp, scanned, macAlive) + KeptAll(existing[1..], byIp, scanned, macAlive)
  }

  function KeptOne(h: Host, byIp: seq<Host>, scanned: Option<set<string>>, macAlive: set<string>): seq<Host> {
    if Has(byIp, h.ip) then [] else [Kept(h, scanned, macAlive)]
  }

  function Nonempty(s: Option<string>): bool { s.Some? && s.value != "" }

  /** The same MAC seen directly at another switch or port. */
  predicate Moved(ex: Host, h: Host) {
    && Lower(ex.mac) == Lower(h.mac)
    && Nonempty(ex.link.switchName) && Nonempty(h.link.switchName)
    && ex.link.direct && h.link.direct
    && (ex.link.switchName, ex.link.port) != (h.link.switchName, h.link.port)
  }

  function ArrivalEvents(h: Host, existing: seq<Host>): seq<Event> {
    match Find(existing, h.ip)
    case None => [NewDevice(h.ip)]
    case Some(ex) => (if ex.online then [] else [DeviceOnline(h.ip)]) + (if Moved(ex, h) then [DeviceMoved(h.ip)] else [])
  }

  function Arrivals(byIp: seq<Host>, existing: seq<Host>): seq<Event> {
    if byIp == [] then [] else ArrivalEvents(byIp[0], existing) + Arrivals(byIp[1..], existing)
  }

  predicate GoesOffline(h: Host, byIp: seq<Host>, scanned: Option<set<string>>, macAlive: set<string>) {
    h.online && !Has(byIp, h.ip) && Judged(scanned, h.ip) && !MacAlive(h, macAlive)
  }

  function Departures(existing: seq<Host>, byIp: seq<Host>, scanned: Option<set<string>>, macAlive: set<string>): seq<Event> {
    if existing == [] then []
    else DepartureOf(existing[0], byIp, scanned, macAlive) + Departures(existing[1..], byIp, scanned, macAlive)
  }

  function DepartureOf(h: Host, byIp: seq<Host>, scanned: Option<set<string>>, macAlive: set<string>): seq<Event> {
    if GoesOffline(h, byIp, scanned, macAlive) then [DeviceOffline(h.ip)] else []
  }

  function CountNew(events: seq<Event>): nat {
    if events == [] then 0 else (if events[0].NewDevice? then 1 else 0) + CountNew(events[1..])
  }

  function CountOffline(events: seq<Event>): nat {
    if events == [] then 0 else (if events[0].DeviceOffline? then 1 else 0) + CountOffline(events[1..])
  }

  /** `_apply_scan` up to the write: the merged rows, the events recorded and the two counts. */
  method ApplyScan(existing: seq<Host>, byIp: seq<Host>, scanned: Option<set<string>>, macAlive: set<string>)
    returns (merged: seq<Host>, events: seq<Event>, newCount: nat, offCount: nat)
    ensures merged == Merged(existing, byIp, scanned, macAlive)
    ensures events == Events(existing, byIp, scanned, macAlive)
    ensures newCount == CountNew(events) && offCount == CountOffline(events)
  {
    hide Arrivals, Departures, KeptAll, CountNew, CountOffline;
    var arrivals, kept, departures;
    arrivals, newCount := RecordArrivals(byIp, existing);
    kept, departures, offCount := RecordDepartures(existing, byIp, scanned, macAlive);
    merged, events := byIp + kept, arrivals + departures;
    CountAppend(arrivals, departures);
    DepartureNews(existing, byIp, scanned, macAlive);
    ArrivalGone(byIp, existing);
  }

  method RecordDepartures(existing: seq<Host>, byIp: seq<Host>, scanned: Option<set<string>>, macAlive: set<string>)
    returns (kept: seq<Host>, events: seq<Event>, offCount: nat)
    ensures kept == KeptAll(existing, byIp, scanned, macAlive)
    ensures events == Departures(existing, byIp, scanned, macAlive) && offCount == CountOffline(events)
  {
    hide CountNew, CountOffline, KeptOne, DepartureOf;
    kept, events, offCount := [], [], 0;
    CountNothing();
    for k := 0 to |existing|
      invariant kept + KeptAll(existing[k..], byIp, scanned, macAlive) == KeptAll(existing, byIp, scanned, macAlive)
      invariant events + Departures(existing[k..], byIp, scanned, macAlive) == Departures(existing, byIp, scanned, macAlive)
      invariant offCount == CountOffline(events)
    {
      var rest := existing[k + 1..];
      assert existing[k..][1..] == rest;
      var row, departure := DepartureStep(existing[k], byIp, scanned, macAlive);
      CountAppend(events, departure);
      ghost var keptRest, later := KeptAll(rest, byIp, scanned, macAlive), Departures(rest, byIp, scanned, macAlive);
      assert (kept + row) + keptRest == kept + (row + keptRest);
      assert (events + departure) + later == events + (departure + later);
      offCount := offCount + |departure|;
      kept, events := kept + row, events + departure;
    }
    assert kept + [] == kept && events + [] == events;
  }

  /** The loop body for one stored host. */
  method DepartureStep(ex: Host, byIp: seq<Host>, scanned: Option<set<string>>, macAlive: set<string>)
    returns (row: seq<Host>, departure: seq<Event>)
    ensures row == KeptOne(ex, byIp, scanned, macAlive) && departure == DepartureOf(ex, byIp, scanned, macAlive)
    ensures CountOffline(departure) == |departure|
  {
    row, departure := [], [];
    if Has(byIp, ex.ip) {
      return;
    }
    if scanned.Some? && ex.ip !in scanned.value {
      row := [ex];
    } else if ex.mac != "" && Lower(ex.mac) in macAlive {
      row := [ex.(online := true)];
    } else {
      row := [ex.(online := false)];
      if ex.online {
        departure := [DeviceOffline(ex.ip)];
        CountOne(DeviceOffline(ex.ip));
      }
    }
  }

  method RecordArrivals(byIp: seq<Host>, existing: seq<Host>) returns (events: seq<Event>, newCount: nat)
    ensures events == Arrivals(byIp, existing) && newCount == CountNew(events)
  {
    hide ArrivalEvents, Find, CountNew, CountOffline;
    events, newCount := [], 0;
    CountNothing();
    for k := 0 to |byIp|
      invariant events + Arrivals(byIp[k..], existing) == Arrivals(byIp, existing)
      invariant newCount == CountNew(events)
    {
      var h, rest := byIp[k], byIp[k + 1..];
      assert byIp[k..][1..] == rest;
      var added := ArrivalStep(h, existing);
      NewInArrival(h, existing);
      CountAppend(events, added);
      assert (events + added) + Arrivals(rest, existing) == events + (added + Arrivals(rest, existing));
      if !Has(existing, h.ip) {
        newCount := newCount + 1;
      }
      events := events + added;
    }
    assert events + [] == events;
  }

  /** The loop body for one responder. */
  method ArrivalStep(h: Host, existing: seq<Host>) returns (added: seq<Event>)
    ensures added == ArrivalEvents(h, existing)
  {
    hide Find, Moved;
    var ex := Find(existing, h.ip);
    added := [];
    if ex.None? {
      return [NewDevice(h.ip)];
    }
    if !ex.value.online {
      added := [DeviceOnline(h.ip)];
    }
    if Moved(ex.value, h) {
      added := added + [DeviceMoved(h.ip)];
    }
  }

  lemma CountNothing()
    ensures CountNew([]) == 0 && CountOffline([]) == 0
  {
  }

  lemma CountOne(e: Event)
    ensures CountNew([e]) == (if e.NewDevice? then 1 else 0) && CountOffline([e]) == (if e.DeviceOffline? then 1 else 0)
  {
    assert [e][1..] == [];
  }

  lemma NewInArrival(h: Host, existing: seq<Host>)
    ensures CountNew(ArrivalEvents(h, existing)) == (if Has(existing, h.ip) then 0 else 1)
    ensures CountOffline(ArrivalEvents(h, existing)) == 0
  {
    CountOne(NewDevice(h.ip));
    CountOne(DeviceOnline(h.ip));
    CountOne(DeviceMoved(h.ip));
    CountAppend([DeviceOnline(h.ip)], [DeviceMoved(h.ip)]);
    if Find(existing, h.ip).Some? {
      var ex := Find(existing, h.ip).value;
      var a: seq<Event> := if ex.online then [] else [DeviceOnline(h.ip)];
      var b: seq<Event> := if Moved(ex, h) then [DeviceMoved(h.ip)] else [];
      CountAppend(a, b);
    }
  }

  lemma {:induction false} ArrivalGone(byIp: seq<Host>, existing: seq<Host>)
    ensures CountOffline(Arrivals(byIp, existing)) == 0
  {
    hide ArrivalEvents;
    if byIp != [] {
      ArrivalGone(byIp[1..], existing);
      NewInArrival(byIp[0], existing);
      CountAppend(ArrivalEvents(byIp[0], existing), Arrivals(byIp[1..], existing));
    }
  }

  lemma {:induction false} DepartureNews(existing: seq<Host>, byIp: seq<Host>, scanned: Option<set<string>>, macAlive: set<string>)
    ensures CountNew(Departures(existing, byIp, scanned, macAlive)) == 0
  {
    hide GoesOffline, CountOffline;
    if existing != [] {
      var first: seq<Event> := if GoesOffline(existing[0], byIp, scanned, macAlive) then [DeviceOffline(existing[0].ip)] else [];
      CountAppend(first, Departures(existing[1..], byIp, scanned, macAlive));
      CountOne(DeviceOffline(existing[0].ip));
      DepartureNews(existing[1..], byIp, scanned, macAlive);
    }
  }

  lemma {:induction false} CountAppend(events: seq<Event>, more: seq<Event>)
    ensures CountNew(events + more) == CountNew(events) + CountNew(more)
    ensures CountOffline(events + more) == CountOffline(events) + CountOffline(more)
  {
    if events == [] {
      assert events + more == more;
    } else {
      CountAppend(events[1..], more);
      assert (events + more)[1..] == events[1..] + more;
    }
  }

  // ---- What the merge means ----

  function Merged(existing: seq<Host>, byIp: seq<Host>, scanned: Option<set<string>>, macAlive: set<string>): seq<Host> {
    byIp + KeptAll(existing, byIp, scanned, macAlive)
  }

  function Events(existing: seq<Host>, byIp: seq<Host>, scanned: Option<set<string>>, macAlive: set<string>): seq<Event> {
    Arrivals(byIp, existing) + Departures(existing, byIp, scanned, macAlive)
  }

  lemma {:induction false} FindMember(hosts: seq<Host>, ip: string)
    ensures Has(hosts, ip) <==> exists h :: h in hosts && h.ip == ip
    ensures Has(hosts, ip) ==> Find(hosts, ip).value in hosts && Find(hosts, ip).value.ip == ip
  {
    if hosts != [] {
      FindMember(hosts[1..], ip);
      assert hosts == [hosts[0]] + hosts[1..];
    }
  }

  lemma {:induction false} KeptMembers(existing: seq<Host>, byIp: seq<Host>, scanned: Option<set<string>>, macAlive: set<string>)
    requires DistinctIps(existing)
    ensures forall m :: m in KeptAll(existing, byIp, scanned, macAlive) <==>
      exists ex :: ex in existing && !Has(byIp, ex.ip) && m == Kept(ex, scanned, macAlive)
    ensures DistinctIps(KeptAll(existing, byIp, scanned, macAlive))
  {
    hide Kept, Find;
    if existing != [] {
      var first, tail := existing[0], existing[1..];
      var rest := KeptAll(tail, byIp, scanned, macAlive);
      KeptMembers(tail, byIp, scanned, macAlive);
      assert forall ex :: ex in existing <==> ex == first || ex in tail;
      forall m | m in rest ensures m.ip != first.ip {
        var ex :| ex in tail && m == Kept(ex, scanned, macAlive);
        KeptIp(ex, scanned, macAlive);
      }
      KeptIp(first, scanned, macAlive);
      assert forall k :: 0 <= k < |rest| ==> rest[k] in rest;
    }
  }

  lemma KeptIp(h: Host, scanned: Option<set<string>>, macAlive: set<string>)
    ensures Kept(h, scanned, macAlive).(online := h.online) == h
  {
  }

  /** One row for each address stored or seen, and only for those: that of the host that answered, or the stored one
      with its flag as told by the scanned set and the MAC tables. */
  lemma MergeCoversUnion(existing: seq<Host>, byIp: seq<Host>, scanned: Option<set<string>>, macAlive: set<string>)
    requires DistinctIps(existing) && DistinctIps(byIp)
    ensures DistinctIps(Merged(existing, byIp, scanned, macAlive))
    ensures forall ip :: Has(Merged(existing, byIp, scanned, macAlive), ip) <==> Has(existing, ip) || Has(byIp, ip)
    ensures forall h :: h in byIp ==> h in Merged(existing, byIp, scanned, macAlive)
    ensures forall ex, m :: ex in existing && m in Merged(existing, byIp, scanned, macAlive) && m.ip == ex.ip ==>
      Has(byIp, ex.ip) || m == ex.(online := FlagAfter(ex, scanned, macAlive))
  {
    hide Find, Kept, KeptAll, Merged;
    var merged := Merged(existing, byIp, scanned, macAlive);
    MergedDistinct(existing, byIp, scanned, macAlive);
    forall ip ensures Has(merged, ip) <==> Has(existing, ip) || Has(byIp, ip) {
      MergedHas(existing, byIp, scanned, macAlive, ip);
    }
    forall ex | ex in existing && !Has(byIp, ex.ip)
      ensures forall m :: m in merged && m.ip == ex.ip ==> m == ex.(online := FlagAfter(ex, scanned, macAlive))
    {
      MergedKeeps(existing, byIp, scanned, macAlive, ex);
      KeptMeans(ex, scanned, macAlive);
    }
  }

  /** The flag of a stored host that did not answer: as it was, outside the scanned set; else whether its MAC is in a
      MAC table. */
  predicate FlagAfter(h: Host, scanned: Option<set<string>>, macAlive: set<string>) {
    if scanned.Some? && h.ip !in scanned.value then h.online else h.mac != "" && Lower(h.mac) in macAlive
  }

  lemma MergedDistinct(existing: seq<Host>, byIp: seq<Host>, scanned: Option<set<string>>, macAlive: set<string>)
    requires DistinctIps(existing) && DistinctIps(byIp)
    ensures DistinctIps(Merged(existing, byIp, scanned, macAlive))
    ensures forall h :: h in byIp ==> h in Merged(existing, byIp, scanned, macAlive)
  {
    hide Find, Kept, KeptAll;
    var rest := KeptAll(existing, byIp, scanned, macAlive);
    KeptMembers(existing, byIp, scanned, macAlive);
    forall i, j | 0 <= i < |byIp| && 0 <= j < |rest| ensures byIp[i].ip != rest[j].ip {
      assert rest[j] in rest && byIp[i] in byIp;
      var ex :| ex in existing && !Has(byIp, ex.ip) && rest[j] == Kept(ex, scanned, macAlive);
      KeptIp(ex, scanned, macAlive);
      FindMember(byIp, ex.ip);
    }
  }

  lemma MergedHas(existing: seq<Host>, byIp: seq<Host>, scanned: Option<set<string>>, macAlive: set<string>, ip: string)
    requires DistinctIps(existing)
    ensures Has(Merged(existing, byIp, scanned, macAlive), ip) <==> Has(existing, ip) || Has(byIp, ip)
  {
    hide Find, Kept, KeptAll;
    var merged, rest := Merged(existing, byIp, scanned, macAlive), KeptAll(existing, byIp, scanned, macAlive);
    KeptMembers(existing, byIp, scanned, macAlive);
    FindMember(merged, ip);
    FindMember(existing, ip);
    FindMember(byIp, ip);
    if Has(existing, ip) && !Has(byIp, ip) {
      var ex := Find(existing, ip).value;
      KeptIp(ex, scanned, macAlive);
      assert Kept(ex, scanned, macAlive) in rest;
    }
    if Has(merged, ip) && !Has(byIp, ip) {
      var m :| m in merged && m.ip == ip;
      assert m in rest;
      var ex :| ex in existing && m == Kept(ex, scanned, macAlive);
      KeptIp(ex, scanned, macAlive);
    }
  }

  /** A stored host that did not answer has one row afterwards. */
  lemma MergedKeeps(existing: seq<Host>, byIp: seq<Host>, scanned: Option<set<string>>, macAlive: set<string>, ex: Host)
    requires DistinctIps(existing) && ex in existing && !Has(byIp, ex.ip)
    ensures Kept(ex, scanned, macAlive) in Merged(existing, byIp, scanned, macAlive)
    ensures forall m :: m in Merged(existing, byIp, scanned, macAlive) && m.ip == ex.ip ==> m == Kept(ex, scanned, macAlive)
    ensures !Judged(scanned, ex.ip) ==> Kept(ex, scanned, macAlive) == ex
  {
    hide Find, KeptAll, MacAlive;
    var merged, rest := Merged(existing, byIp, scanned, macAlive), KeptAll(existing, byIp, scanned, macAlive);
    KeptMembers(existing, byIp, scanned, macAlive);
    FindMember(byIp, ex.ip);
    forall m | m in merged && m.ip == ex.ip ensures m == Kept(ex, scanned, macAlive) {
      assert m in rest;
      var g :| g in existing && !Has(byIp, g.ip) && m == Kept(g, scanned, macAlive);
      SameHost(existing, ex, ex.ip);
    }
  }

  lemma SameHost(existing: seq<Host>, ex: Host, ip: string)
    requires DistinctIps(existing) && ex in existing && ex.ip == ip
    ensures forall g :: g in existing && g.ip == ip ==> g == ex
  {
  }

  lemma {:induction false} ArrivalKinds(byIp: seq<Host>, existing: seq<Host>, ip: string)
    ensures NewDevice(ip) in Arrivals(byIp, existing) <==> Has(byIp, ip) && !Has(existing, ip)
    ensures DeviceOffline(ip) !in Arrivals(byIp, existing)
  {
    if byIp != [] {
      ArrivalKinds(byIp[1..], existing, ip);
    }
  }

  lemma {:induction false} DepartureKinds(existing: seq<Host>, byIp: seq<Host>, scanned: Option<set<string>>,
                                          macAlive: set<string>, ip: string)
    requires DistinctIps(existing)
    ensures NewDevice(ip) !in Departures(existing, byIp, scanned, macAlive)
    ensures DeviceOffline(ip) in Departures(existing, byIp, scanned, macAlive) <==>
      Has(existing, ip) && GoesOffline(Find(existing, ip).value, byIp, scanned, macAlive)
  {
    hide GoesOffline;
    if existing != [] {
      DepartureKinds(existing[1..], byIp, scanned, macAlive, ip);
      FindMember(existing[1..], ip);
    }
  }

  /** `new_device` is recorded exactly for addresses not stored before, and `device_offline` exactly for
      stored hosts whose row turns from online to offline. */
  lemma EventsMatchTransitions(existing: seq<Host>, byIp: seq<Host>, scanned: Option<set<string>>, macAlive: set<string>, ip: string)
    requires DistinctIps(existing) && DistinctIps(byIp) && forall h :: h in byIp ==> h.online
    ensures
      var events := Events(existing, byIp, scanned, macAlive);
      && (NewDevice(ip) in events <==> Has(byIp, ip) && !Has(existing, ip))
      && (DeviceOffline(ip) in events <==>
            exists ex, m :: ex in existing && m in Merged(existing, byIp, scanned, macAlive) && ex.ip == m.ip == ip
                            && ex.online && !m.online)
  {
    hide Arrivals, Departures, Find, KeptAll, Merged, MacAlive;
    ArrivalKinds(byIp, existing, ip);
    DepartureKinds(existing, byIp, scanned, macAlive, ip);
    FindMember(existing, ip);
    var merged := Merged(existing, byIp, scanned, macAlive);
    if DeviceOffline(ip) in Departures(existing, byIp, scanned, macAlive) {
      var ex := Find(existing, ip).value;
      MergedKeeps(existing, byIp, scanned, macAlive, ex);
      KeptIp(ex, scanned, macAlive);
    }
    if ex, m :| ex in existing && m in merged && ex.ip == m.ip == ip && ex.online && !m.online {
      SameHost(existing, ex, ip);
      NotOfArrivals(existing, byIp, scanned, macAlive, m);
      MergedKeeps(existing, byIp, scanned, macAlive, ex);
      assert GoesOffline(ex, byIp, scanned, macAlive);
    }
  }

  /** A row that is offline after the merge comes from a host that did not answer. */
  lemma NotOfArrivals(existing: seq<Host>, byIp: seq<Host>, scanned: Option<set<string>>, macAlive: set<string>, m: Host)
    requires DistinctIps(existing) && m in Merged(existing, byIp, scanned, macAlive) && !m.online
    requires forall h :: h in byIp ==> h.online
    ensures !Has(byIp, m.ip)
  {
    hide Find, KeptAll, Kept;
    KeptMembers(existing, byIp, scanned, macAlive);
    assert m in KeptAll(existing, byIp, scanned, macAlive);
    var g :| g in existing && !Has(byIp, g.ip) && m == Kept(g, scanned, macAlive);
    KeptIp(g, scanned, macAlive);
  }

  lemma {:induction false} OnlineKinds(byIp: seq<Host>, existing: seq<Host>, ip: string)
    ensures DeviceOnline(ip) in Arrivals(byIp, existing) <==>
      Has(byIp, ip) && Has(existing, ip) && !Find(existing, ip).value.online
  {
    hide Moved;
    if byIp != [] {
      OnlineKinds(byIp[1..], existing, ip);
      var first, h := ArrivalEvents(byIp[0], existing), byIp[0];
      assert DeviceOnline(ip) in first <==> h.ip == ip && Has(existing, ip) && !Find(existing, ip).value.online;
    }
  }

  lemma {:induction false} NoOnlineDeparture(existing: seq<Host>, byIp: seq<Host>, scanned: Option<set<string>>,
                                             macAlive: set<string>, ip: string)
    ensures DeviceOnline(ip) !in Departures(existing, byIp, scanned, macAlive)
  {
    hide GoesOffline;
    if existing != [] { NoOnlineDeparture(existing[1..], byIp, scanned, macAlive, ip); }
  }

  /** `device_online` is recorded exactly for hosts stored as offline that answered. */
  lemma RecoveryEventIff(existing: seq<Host>, byIp: seq<Host>, scanned: Option<set<string>>, macAlive: set<string>, ip: string)
    ensures DeviceOnline(ip) in Events(existing, byIp, scanned, macAlive) <==>
      Has(existing, ip) && !Find(existing, ip).value.online && Has(byIp, ip)
  {
    hide Arrivals, Departures, Find;
    OnlineKinds(byIp, existing, ip);
    NoOnlineDeparture(existing, byIp, scanned, macAlive, ip);
  }

  /** A stored host answers with the same MAC, in any case of its letters, and both times it was directly attached, now
      at another switch or port. */
  ghost predicate MovedHost(existing: seq<Host>, byIp: seq<Host>, ip: string) {
    && Has(existing, ip) && Has(byIp, ip)
    && var a, b := Find(existing, ip).value, Find(byIp, ip).value;
      && SameLetters(a.mac, b.mac) && a.link.direct && b.link.direct
      && a.link.switchName !in {None, Some("")} && b.link.switchName !in {None, Some("")}
      && (a.link.switchName != b.link.switchName || a.link.port != b.link.port)
  }

  lemma {:induction false} MovedKinds(byIp: seq<Host>, existing: seq<Host>, ip: string)
    requires DistinctIps(byIp)
    ensures DeviceMoved(ip) in Arrivals(byIp, existing) <==>
      Has(byIp, ip) && Has(existing, ip) && Moved(Find(existing, ip).value, Find(byIp, ip).value)
  {
    hide Moved;
    if byIp != [] {
      MovedKinds(byIp[1..], existing, ip);
      var first, h := ArrivalEvents(byIp[0], existing), byIp[0];
      assert DeviceMoved(ip) in first <==> h.ip == ip && Has(existing, ip) && Moved(Find(existing, ip).value, h);
      if h.ip == ip {
        FindMember(byIp[1..], ip);
        if Has(byIp[1..], ip) { assert Find(byIp[1..], ip).value in byIp[1..]; }
      }
    }
  }

  /** `device_moved` is recorded exactly for such hosts. */
  lemma MovedEventIff(existing: seq<Host>, byIp: seq<Host>, scanned: Option<set<string>>, macAlive: set<string>, ip: string)
    requires DistinctIps(byIp)
    ensures DeviceMoved(ip) in Events(existing, byIp, scanned, macAlive) <==> MovedHost(existing, byIp, ip)
  {
    hide Arrivals, Departures, Find, Lower;
    MovedKinds(byIp, existing, ip);
    DeparturesOnly(existing, byIp, scanned, macAlive);
    if Has(existing, ip) && Has(byIp, ip) { CaseFolds(Find(existing, ip).value.mac, Find(byIp, ip).value.mac); }
  }

  lemma {:induction false} DeparturesOnly(existing: seq<Host>, byIp: seq<Host>, scanned: Option<set<string>>, macAlive: set<string>)
    ensures forall e :: e in Departures(existing, byIp, scanned, macAlive) ==>
      e.DeviceOffline? && Has(existing, e.ip) && !Has(byIp, e.ip)
  {
    hide Judged, MacAlive;
    if existing != [] { DeparturesOnly(existing[1..], byIp, scanned, macAlive); }
  }

  lemma {:induction false} ArrivalsOnly(byIp: seq<Host>, existing: seq<Host>)
    ensures forall e :: e in Arrivals(byIp, existing) ==> !e.DeviceOffline? && Has(byIp, e.ip)
  {
    hide Moved;
    if byIp != [] { ArrivalsOnly(byIp[1..], existing); }
  }

  lemma {:induction false} ArrivalsOnce(byIp: seq<Host>, existing: seq<Host>, e: Event)
    requires DistinctIps(byIp)
    ensures multiset(Arrivals(byIp, existing))[e] <= 1
  {
    hide ArrivalEvents, Find;
    if byIp != [] {
      ArrivalsOnce(byIp[1..], existing, e);
      ArrivalsOnly(byIp[1..], existing);
      FindMember(byIp[1..], byIp[0].ip);
      ArrivalOnce(byIp[0], existing, e);
      OnceInBoth(ArrivalEvents(byIp[0], existing), Arrivals(byIp[1..], existing), e);
    }
  }

  lemma ArrivalOnce(h: Host, existing: seq<Host>, e: Event)
    ensures multiset(ArrivalEvents(h, existing))[e] <= 1 && (e in ArrivalEvents(h, existing) ==> e.ip == h.ip)
  {
    hide Moved, Find;
  }

  lemma OnceInBoth(a: seq<Event>, b: seq<Event>, e: Event)
    requires multiset(a)[e] <= 1 && multiset(b)[e] <= 1 && !(e in a && e in b)
    ensures multiset(a + b)[e] <= 1
  {
    assert multiset(a + b)[e] == multiset(a)[e] + multiset(b)[e];
    assert (e in a <==> multiset(a)[e] > 0) && (e in b <==> multiset(b)[e] > 0);
  }

  lemma {:induction false} DeparturesOnce(existing: seq<Host>, byIp: seq<Host>, scanned: Option<set<string>>,
                                          macAlive: set<string>, e: Event)
    requires DistinctIps(existing)
    ensures multiset(Departures(existing, byIp, scanned, macAlive))[e] <= 1
  {
    hide GoesOffline, Find;
    if existing != [] {
      DeparturesOnce(existing[1..], byIp, scanned, macAlive, e);
      DeparturesOnly(existing[1..], byIp, scanned, macAlive);
      FindMember(existing[1..], existing[0].ip);
      OnceInBoth(DepartureOf(existing[0], byIp, scanned, macAlive), Departures(existing[1..], byIp, scanned, macAlive), e);
    }
  }

  /** No event is recorded twice. */
  lemma EventsOnce(existing: seq<Host>, byIp: seq<Host>, scanned: Option<set<string>>, macAlive: set<string>, e: Event)
    requires DistinctIps(existing) && DistinctIps(byIp)
    ensures multiset(Events(existing, byIp, scanned, macAlive))[e] <= 1
  {
    hide Arrivals, Departures;
    ArrivalsOnce(byIp, existing, e);
    DeparturesOnce(existing, byIp, scanned, macAlive, e);
    ArrivalsOnly(byIp, existing);
    DeparturesOnly(existing, byIp, scanned, macAlive);
    OnceInBoth(Arrivals(byIp, existing), Departures(existing, byIp, scanned, macAlive), e);
  }

  /** The row of an address turns from offline to online. */
  ghost predicate Recovers(existing: seq<Host>, merged: seq<Host>, ip: string) {
    exists ex, m :: ex in existing && m in merged && ex.ip == m.ip == ip && !ex.online && m.online
  }

  /** So a row recovers without that event exactly when its host did not answer but was up for judgement, and
      its MAC is in a MAC table. */
  lemma SilentRecoveryIff(existing: seq<Host>, byIp: seq<Host>, scanned: Option<set<string>>, macAlive: set<string>, ip: string)
    requires DistinctIps(existing) && DistinctIps(byIp) && forall h :: h in byIp ==> h.online
    ensures
      (Recovers(existing, Merged(existing, byIp, scanned, macAlive), ip) &&
       DeviceOnline(ip) !in Events(existing, byIp, scanned, macAlive)) <==>
      && Has(existing, ip) && !Find(existing, ip).value.online && !Has(byIp, ip)
      && Judged(scanned, ip) && MacAlive(Find(existing, ip).value, macAlive)
  {
    hide Find, KeptAll, Merged, MacAlive, Events, Judged;
    RecoveryEventIff(existing, byIp, scanned, macAlive, ip);
    FindMember(existing, ip);
    FindMember(byIp, ip);
    var merged := Merged(existing, byIp, scanned, macAlive);
    if Has(existing, ip) {
      var ex := Find(existing, ip).value;
      SameHost(existing, ex, ip);
      if !Has(byIp, ip) {
        MergedKeeps(existing, byIp, scanned, macAlive, ex);
        KeptIp(ex, scanned, macAlive);
        assert Recovers(existing, merged, ip) <==> !ex.online && Kept(ex, scanned, macAlive).online;
      }
    }
  }

  /** For instance: a silent host whose MAC is in a MAC table comes back online without a
      `device_online` event, which only answering hosts get. */
  lemma SilentRecovery()
    ensures
      var ex := Host(Some("10.0.0.0/24"), "10.0.0.5", "aa", false, Link(None, None, None, true, None, None));
      && Merged([ex], [], None, {"aa"}) == [ex.(online := true)]
      && Events([ex], [], None, {"aa"}) == []
  {
    var ex := Host(Some("10.0.0.0/24"), "10.0.0.5", "aa", false, Link(None, None, None, true, None, None));
    assert Lower("aa") == "aa";
    assert [ex][1..] == [];
    assert KeptAll([ex], [], None, {"aa"}) == [Kept(ex, None, {"aa"})] + KeptAll([ex][1..], [], None, {"aa"});
  }

  // ---- From the ping loop to the table ----

  function HostsOf(rows: seq<Row>, subnet: string): (hosts: seq<Host>)
    ensures forall h :: h in hosts ==> h.subnet == Some(subnet)
  {
    if rows == [] then []
    else (if rows[0].host.subnet == Some(subnet) then [rows[0].host] else []) + HostsOf(rows[1..], subnet)
  }

  lemma {:induction false} HostsOfMembers(rows: seq<Row>, subnet: string)
    ensures forall h :: h in HostsOf(rows, subnet) <==> h.subnet == Some(subnet) && exists r :: r in rows && r.host == h
  {
    if rows != [] {
      HostsOfMembers(rows[1..], subnet);
      assert rows == [rows[0]] + rows[1..];
    }
  }

  lemma {:induction false} HostsOfDistinct(rows: seq<Row>, subnet: string)
    requires UniqueKeys(rows)
    ensures DistinctIps(HostsOf(rows, subnet))
  {
    if rows != [] {
      HostsOfDistinct(rows[1..], subnet);
      HostsOfMembers(rows[1..], subnet);
      if rows[0].host.subnet == Some(subnet) {
        forall h | h in HostsOf(rows[1..], subnet) ensures h.ip != rows[0].host.ip {
          var r :| r in rows[1..] && r.host == h;
          var j :| 0 <= j < |rows[1..]| && rows[1..][j] == r;
          assert !SameKey(rows[0].host, rows[j + 1].host);
        }
      }
    }
  }

  datatype BandResult = ScanFailed | ZeroArp | Applied(saved: nat, added: nat, gone: nat)

  const UNLINKED: Link := Link(None, None, None, false, None, None)

  /** What is stored about the attachment chosen. */
  function LinkAt(ms: seq<Seen>, descs: map<PortKey, string>, r: Choice): Link
    requires r.index < |ms|
  {
    var key := (ms[r.index].switchId, Lower(r.port));
    Link(Some(ms[r.index].switchId), Some(ms[r.index].switchName), Some(r.port), r.direct,
         if r.via == [] then None else Some(Decimal.Join(r.via, "; ")), if key in descs then Some(descs[key]) else None)
  }

  function SeenOf(mac: string, macMap: map<string, seq<Seen>>): seq<Seen> { if mac in macMap then macMap[mac] else [] }

  ghost predicate LinkedTo(link: Link, ms: seq<Seen>, c: Context, descs: map<PortKey, string>) {
    if ms == [] then link == UNLINKED
    else exists r :: RightlyChosen(ms, c, r) && link == LinkAt(ms, descs, r)
  }

  /** The attachment is the best observation of the MAC, or none when no switch has seen it. */
  ghost predicate Linked(link: Link, mac: string, macMap: map<string, seq<Seen>>, c: Context, descs: map<PortKey, string>) {
    LinkedTo(link, SeenOf(mac, macMap), c, descs)
  }

  method FindLink(mac: string, macMap: map<string, seq<Seen>>, c: Context, descs: map<PortKey, string>) returns (link: Link)
    ensures Linked(link, mac, macMap, c, descs)
  {
    hide Direct, Best, PortText, Others, Decimal.Join, Profile, Beats, PluggedIn, LooksPhysical;
    link := UNLINKED;
    var ms := SeenOf(mac, macMap);
    var choice := ChooseAttachment(ms, c);
    if choice.Some? {
      var r := choice.value;
      var key := (ms[r.index].switchId, Lower(r.port));
      link := Link(Some(ms[r.index].switchId), Some(ms[r.index].switchName), Some(r.port), r.direct,
                   if r.via == [] then None else Some(Decimal.Join(r.via, "; ")), if key in descs then Some(descs[key]) else None);
      assert RightlyChosen(ms, c, r) && link == LinkAt(ms, descs, r);
    }
    assert LinkedTo(link, ms, c, descs);
  }

  /** The answering hosts, each with the attachment chosen for its MAC. */
  method BuildByIp(subnet: string, arp: map<string, string>, macMap: map<string, seq<Seen>>, c: Context,
                   descs: map<PortKey, string>) returns (byIp: seq<Host>)
    ensures DistinctIps(byIp)
    ensures forall h :: h in byIp ==> h.online && h.subnet == Some(subnet) && h.ip in arp && h.mac == arp[h.ip]
    ensures forall ip :: ip in arp <==> Has(byIp, ip)
    ensures forall h :: h in byIp ==> Linked(h.link, Lower(h.mac), macMap, c, descs)
  {
    byIp := [];
    var left := arp.Keys;
    while left != {}
      invariant left <= arp.Keys && DistinctIps(byIp)
      invariant forall h :: h in byIp ==> h.online && h.subnet == Some(subnet) && h.ip in arp && h.mac == arp[h.ip] && h.ip !in left
      invariant forall ip :: ip in arp && ip !in left ==> exists h :: h in byIp && h.ip == ip
      invariant forall h :: h in byIp ==> Linked(h.link, Lower(h.mac), macMap, c, descs)
      decreases left
    {
      hide Linked, Lower;
      var ip :| ip in left;
      left := left - {ip};
      var link := FindLink(Lower(arp[ip]), macMap, c, descs);
      ghost var before := byIp;
      byIp := byIp + [Host(Some(subnet), ip, arp[ip], true, link)];
      assert byIp[|before|].ip == ip && byIp[|before|] in byIp;
      assert forall h :: h in before ==> h in byIp;
    }
    forall ip ensures ip in arp <==> Has(byIp, ip) {
      FindMember(byIp, ip);
    }
  }

  /** A whole band scan, for every script. A host that is in an ARP read, or in the search through the VRFs when the
      reads bring nothing, is stored as online, with the MAC of the latest read and the best attachment of that MAC. A
      stored host that is in none keeps everything but its flag, and that too unless it is up for judgement: its ping
      was completed in this scan (or never ended, in a muted one; for an address outside the band a clean run takes
      the place of its ping); then it is online exactly if its MAC is in a MAC table. A failed scan and a scan
      without ARP entries over a populated band leave the table alone; any other leaves one row for each address
      stored or seen that is no managed device; of the rows of other subnets it deletes those of such an address,
      and an address that had one row in the table at most still has. */
  method CollectBand(db: FacilityDb, subnet: string, ips: seq<string>, vrfCapable: bool, w: Script, now: int,
                     macMap: map<string, seq<Seen>>, c: Context, descs: map<PortKey, string>) returns (result: BandResult)
    requires Distinct(ips) && UniqueKeys(db.rows)
    modifies db`rows
    ensures result == ScanFailed <==> w.connect.Refused? || (!LastReadMade(ips, w) && NothingRead(ips, w))
    ensures result == ZeroArp <==>
      result != ScanFailed && (forall ip :: !Answers(ips, vrfCapable, w, ip)) && HostsOf(old(db.rows), subnet) != []
    ensures result in {ScanFailed, ZeroArp} ==> db.rows == old(db.rows)
    ensures result.Applied? ==> forall ex, m ::
      ex in HostsOf(old(db.rows), subnet) && m in HostsOf(db.rows, subnet) && m.ip == ex.ip &&
      !Answers(ips, vrfCapable, w, ex.ip) ==>
      m == ex.(online := if UpForJudgement(ips, w, ex.ip) then ex.mac != "" && Lower(ex.mac) in macMap else ex.online)
    ensures result.Applied? ==> forall m :: m in HostsOf(db.rows, subnet) ==> Strip(m.ip) !in db.known
    ensures result.Applied? ==> forall ip :: Has(HostsOf(db.rows, subnet), ip) <==>
      Strip(ip) !in db.known && (Answers(ips, vrfCapable, w, ip) || Has(HostsOf(old(db.rows), subnet), ip))
    ensures result.Applied? ==> forall m :: m in HostsOf(db.rows, subnet) && Answers(ips, vrfCapable, w, m.ip) ==>
      m.online && EndsWith(ips, vrfCapable, w, m.ip, m.mac) && Linked(m.link, Lower(m.mac), macMap, c, descs)
    ensures result.Applied? ==> forall r: Row :: r.host.subnet != Some(subnet) ==>
      (r in db.rows <==> r in old(db.rows) && !ClaimedBy(r, ips, vrfCapable, w, subnet, old(db.rows), db.known))
    ensures subnet != "" && OneRowPerIp(old(db.rows)) ==> OneRowPerIp(db.rows)
    ensures UniqueKeys(db.rows)
    ensures result.Applied? ==> forall s: set<string> ::
      && (AreSaved(s, ips, vrfCapable, w, HostsOf(old(db.rows), subnet)) ==> result.saved == |s|)
      && (AreAdded(s, ips, vrfCapable, w, HostsOf(old(db.rows), subnet)) ==> result.added == |s|)
      && (AreGone(s, ips, vrfCapable, w, HostsOf(old(db.rows), subnet), macMap.Keys) ==> result.gone == |s|)
  {
    hide AreSaved, AreAdded, AreGone, GoesOffline, NewIps, GoneIps, IpsOf, CountNew, CountOffline, OneRowPerIp, UniqueKeys,
         Claimed, ClaimedBy, HostsOf, Replaced, Strip, KeptAll, Kept, Events, SweepOf, Find, UpForJudgement, Answers,
         EndsWith, Linked, LastReadMade, NothingRead, Has, Judged;
    FailsIff(ips, vrfCapable, w);
    var swept := Sweep(ips, vrfCapable, w);
    if swept.Failed? {
      return ScanFailed;
    }
    forall ip
      ensures ip in swept.arp <==> Answers(ips, vrfCapable, w, ip)
      ensures ip in swept.arp ==> EndsWith(ips, vrfCapable, w, ip, swept.arp[ip])
    {
      AnswersIff(ips, vrfCapable, w, ip);
    }
    var byIp := BuildByIp(subnet, swept.arp, macMap, c, descs);
    var existing := HostsOf(db.rows, subnet);
    HostsOfDistinct(db.rows, subnet);
    if swept.arp == map[] && existing != [] {
      return ZeroArp;
    }
    var merged, events, newCount, offCount := ApplyScan(existing, byIp, swept.scanned, macMap.Keys);
    db.ReplaceFacilitySubnet(subnet, merged, now);
    result := Applied(|merged|, newCount, offCount);
    ReplacedUnique(old(db.rows), subnet, merged, db.known, now);
    SilentHosts(old(db.rows), subnet, merged, db.known, now, existing, byIp, swept.scanned, macMap.Keys);
    SeenHosts(old(db.rows), subnet, merged, db.known, now, existing, byIp, swept.scanned, macMap.Keys);
    OtherSubnets(old(db.rows), subnet, merged, db.known, now, existing, byIp, swept.arp, swept.scanned, macMap.Keys);
    forall r: Row
      ensures Claimed(r, subnet, old(db.rows), db.known, swept.arp) <==>
        ClaimedBy(r, ips, vrfCapable, w, subnet, old(db.rows), db.known)
    {
      SameClaim(r, ips, vrfCapable, w, subnet, old(db.rows), db.known, swept.arp);
    }
    forall ip ensures Has(HostsOf(db.rows, subnet), ip) <==> Strip(ip) !in db.known && (ip in swept.arp || Has(existing, ip)) {
      BandCovers(old(db.rows), subnet, merged, db.known, now, existing, byIp, swept.scanned, macMap.Keys, ip);
    }
    MergeCounts(existing, byIp, swept.scanned, macMap.Keys);
    forall s: set<string>
      ensures AreSaved(s, ips, vrfCapable, w, existing) ==> result.saved == |s|
      ensures AreAdded(s, ips, vrfCapable, w, existing) ==> result.added == |s|
      ensures AreGone(s, ips, vrfCapable, w, existing, macMap.Keys) ==> result.gone == |s|
    {
      forall ex | ex in existing && !Has(byIp, ex.ip)
        ensures Judged(swept.scanned, ex.ip) <==> UpForJudgement(ips, w, ex.ip)
      {
        JudgedByScript(ips, vrfCapable, w, ex.ip);
      }
      SameCounts(s, ips, vrfCapable, w, existing, byIp, swept.scanned, macMap.Keys);
    }
    forall ex, m |
      ex in existing && m in HostsOf(db.rows, subnet) && m.ip == ex.ip && !Answers(ips, vrfCapable, w, ex.ip)
      ensures
        m == ex.(online := if UpForJudgement(ips, w, ex.ip) then ex.mac != "" && Lower(ex.mac) in macMap else ex.online)
    {
      JudgedByScript(ips, vrfCapable, w, ex.ip);
      KeptMeans(ex, swept.scanned, macMap.Keys);
    }
  }

  ghost predicate AreSaved(s: set<string>, ips: seq<string>, vrfCapable: bool, w: Script, before: seq<Host>) {
    forall ip :: ip in s <==> Answers(ips, vrfCapable, w, ip) || Has(before, ip)
  }

  ghost predicate AreAdded(s: set<string>, ips: seq<string>, vrfCapable: bool, w: Script, before: seq<Host>) {
    forall ip :: ip in s <==> Answers(ips, vrfCapable, w, ip) && !Has(before, ip)
  }

  ghost predicate AreGone(s: set<string>, ips: seq<string>, vrfCapable: bool, w: Script, before: seq<Host>,
                          macAlive: set<string>)
  {
    forall ip :: ip in s <==>
      (&& !Answers(ips, vrfCapable, w, ip) && UpForJudgement(ips, w, ip)
       && exists ex :: ex in before && ex.ip == ip && ex.online && !(ex.mac != "" && Lower(ex.mac) in macAlive))
  }

  function IpsOf(hosts: seq<Host>): set<string> { set h | h in hosts :: h.ip }

  function NewIps(byIp: seq<Host>, existing: seq<Host>): set<string> {
    set h | h in byIp && !Has(existing, h.ip) :: h.ip
  }

  function GoneIps(existing: seq<Host>, byIp: seq<Host>, scanned: Option<set<string>>, macAlive: set<string>): set<string> {
    set h | h in existing && GoesOffline(h, byIp, scanned, macAlive) :: h.ip
  }

  lemma {:induction false} SizeOf(hosts: seq<Host>)
    requires DistinctIps(hosts)
    ensures |IpsOf(hosts)| == |hosts|
  {
    if hosts != [] {
      SizeOf(hosts[1..]);
      NotInTail(hosts);
      assert IpsOf(hosts) == {hosts[0].ip} + IpsOf(hosts[1..]);
    }
  }

  lemma NotInTail(hosts: seq<Host>)
    requires DistinctIps(hosts) && hosts != []
    ensures forall h :: h in hosts[1..] ==> h.ip != hosts[0].ip
    ensures forall h :: h in hosts <==> h == hosts[0] || h in hosts[1..]
  {
    assert hosts == [hosts[0]] + hosts[1..];
    forall h | h in hosts[1..] ensures h.ip != hosts[0].ip {
      var j :| 0 <= j < |hosts| - 1 && hosts[1..][j] == h;
      assert hosts[j + 1] == h;
    }
  }

  lemma {:induction false} NewCount(byIp: seq<Host>, existing: seq<Host>)
    requires DistinctIps(byIp)
    ensures CountNew(Arrivals(byIp, existing)) == |NewIps(byIp, existing)|
  {
    if byIp != [] {
      hide ArrivalEvents, CountNew, CountOffline, Find, NewIps, DistinctIps, Has;
      TailDistinct(byIp);
      NewCount(byIp[1..], existing);
      CountAppend(ArrivalEvents(byIp[0], existing), Arrivals(byIp[1..], existing));
      NewInArrival(byIp[0], existing);
      NewCons(byIp, existing);
    } else {
      assert NewIps(byIp, existing) == {};
    }
  }

  lemma NewCons(byIp: seq<Host>, existing: seq<Host>)
    requires DistinctIps(byIp) && byIp != []
    ensures |NewIps(byIp, existing)| == |NewIps(byIp[1..], existing)| + if Has(existing, byIp[0].ip) then 0 else 1
  {
    hide Has, DistinctIps;
    NotInTail(byIp);
    var own := if Has(existing, byIp[0].ip) then {} else {byIp[0].ip};
    assert NewIps(byIp, existing) == own + NewIps(byIp[1..], existing);
  }

  lemma {:induction false} GoneCount(existing: seq<Host>, byIp: seq<Host>, scanned: Option<set<string>>, macAlive: set<string>)
    requires DistinctIps(existing)
    ensures CountOffline(Departures(existing, byIp, scanned, macAlive)) == |GoneIps(existing, byIp, scanned, macAlive)|
  {
    if existing != [] {
      hide GoesOffline, CountNew, CountOffline, DepartureOf, DistinctIps, GoneIps;
      var h, tail := existing[0], existing[1..];
      TailDistinct(existing);
      GoneCount(tail, byIp, scanned, macAlive);
      CountAppend(DepartureOf(h, byIp, scanned, macAlive), Departures(tail, byIp, scanned, macAlive));
      GoneCons(existing, byIp, scanned, macAlive);
    }
  }

  lemma TailDistinct(hosts: seq<Host>)
    requires DistinctIps(hosts) && hosts != []
    ensures DistinctIps(hosts[1..])
  {
  }

  lemma GoneCons(existing: seq<Host>, byIp: seq<Host>, scanned: Option<set<string>>, macAlive: set<string>)
    requires DistinctIps(existing) && existing != []
    ensures |GoneIps(existing, byIp, scanned, macAlive)| ==
      CountOffline(DepartureOf(existing[0], byIp, scanned, macAlive)) + |GoneIps(existing[1..], byIp, scanned, macAlive)|
  {
    hide GoesOffline, CountNew, CountOffline, DistinctIps, DepartureOf;
    OneDeparture(existing[0], byIp, scanned, macAlive);
    NotInTail(existing);
    var own := if GoesOffline(existing[0], byIp, scanned, macAlive) then {existing[0].ip} else {};
    assert GoneIps(existing, byIp, scanned, macAlive) == own + GoneIps(existing[1..], byIp, scanned, macAlive);
  }

  lemma OneDeparture(h: Host, byIp: seq<Host>, scanned: Option<set<string>>, macAlive: set<string>)
    ensures CountOffline(DepartureOf(h, byIp, scanned, macAlive)) == if GoesOffline(h, byIp, scanned, macAlive) then 1 else 0
  {
    hide GoesOffline;
    CountOne(DeviceOffline(h.ip));
    CountNothing();
  }

  /** The sizes that a scan reports. */
  lemma MergeCounts(existing: seq<Host>, byIp: seq<Host>, scanned: Option<set<string>>, macAlive: set<string>)
    requires DistinctIps(existing) && DistinctIps(byIp)
    ensures |Merged(existing, byIp, scanned, macAlive)| == |IpsOf(Merged(existing, byIp, scanned, macAlive))|
    ensures CountNew(Events(existing, byIp, scanned, macAlive)) == |NewIps(byIp, existing)|
    ensures CountOffline(Events(existing, byIp, scanned, macAlive)) == |GoneIps(existing, byIp, scanned, macAlive)|
  {
    hide Arrivals, Departures, Merged, CountNew, CountOffline, NewIps, GoneIps, IpsOf;
    MergedDistinct(existing, byIp, scanned, macAlive);
    SizeOf(Merged(existing, byIp, scanned, macAlive));
    CountAppend(Arrivals(byIp, existing), Departures(existing, byIp, scanned, macAlive));
    DepartureNews(existing, byIp, scanned, macAlive);
    ArrivalGone(byIp, existing);
    NewCount(byIp, existing);
    GoneCount(existing, byIp, scanned, macAlive);
  }

  lemma SameCounts(s: set<string>, ips: seq<string>, vrfCapable: bool, w: Script, existing: seq<Host>, byIp: seq<Host>,
                   scanned: Option<set<string>>, macAlive: set<string>)
    requires DistinctIps(existing) && DistinctIps(byIp)
    requires forall ip :: Has(byIp, ip) <==> Answers(ips, vrfCapable, w, ip)
    requires forall ex :: ex in existing && !Has(byIp, ex.ip) ==> (Judged(scanned, ex.ip) <==> UpForJudgement(ips, w, ex.ip))
    ensures AreSaved(s, ips, vrfCapable, w, existing) ==> s == IpsOf(Merged(existing, byIp, scanned, macAlive))
    ensures AreAdded(s, ips, vrfCapable, w, existing) ==> s == NewIps(byIp, existing)
    ensures AreGone(s, ips, vrfCapable, w, existing, macAlive) ==> s == GoneIps(existing, byIp, scanned, macAlive)
  {
    hide Answers, UpForJudgement, Judged, Lower, Find, Kept, KeptAll, Merged;
    forall ip {:trigger Has(byIp, ip)} {:trigger Has(existing, ip)}
      ensures ip in IpsOf(Merged(existing, byIp, scanned, macAlive)) <==> Has(existing, ip) || Has(byIp, ip)
      ensures ip in NewIps(byIp, existing) <==> Has(byIp, ip) && !Has(existing, ip)
    {
      MergedHas(existing, byIp, scanned, macAlive, ip);
      FindMember(Merged(existing, byIp, scanned, macAlive), ip);
      FindMember(byIp, ip);
    }
    if AreSaved(s, ips, vrfCapable, w, existing) {
      assert forall ip :: ip in s <==> ip in IpsOf(Merged(existing, byIp, scanned, macAlive));
    }
    if AreGone(s, ips, vrfCapable, w, existing, macAlive) {
      forall ip ensures ip in s <==> ip in GoneIps(existing, byIp, scanned, macAlive) { }
    }
  }

  lemma KeptMeans(h: Host, scanned: Option<set<string>>, macAlive: set<string>)
    ensures Kept(h, scanned, macAlive) == h.(online := FlagAfter(h, scanned, macAlive))
    ensures FlagAfter(h, scanned, macAlive) ==
      if Judged(scanned, h.ip) then h.mac != "" && Lower(h.mac) in macAlive else h.online
  {
    hide Lower;
  }

  lemma BandCovers(rows: seq<Row>, subnet: string, merged: seq<Host>, known: set<string>, now: int, existing: seq<Host>,
                   byIp: seq<Host>, scanned: Option<set<string>>, macAlive: set<string>, ip: string)
    requires existing == HostsOf(rows, subnet) && DistinctIps(existing) && DistinctIps(byIp)
    requires merged == Merged(existing, byIp, scanned, macAlive) && forall h :: h in byIp ==> h.subnet == Some(subnet)
    ensures Has(HostsOf(Replaced(rows, subnet, merged, known, now), subnet), ip) <==>
      Strip(ip) !in known && (Has(byIp, ip) || Has(existing, ip))
  {
    hide Kept, KeptAll, Merged, Replaced, Strip, Find, HostsOf;
    var result := Replaced(rows, subnet, merged, known, now);
    MergedHas(existing, byIp, scanned, macAlive, ip);
    FindMember(merged, ip);
    FindMember(HostsOf(result, subnet), ip);
    HostsOfMembers(result, subnet);
    if Has(HostsOf(result, subnet), ip) {
      ReplacedOrigin(rows, subnet, merged, known, now);
    }
    if Strip(ip) !in known && Has(merged, ip) {
      var h := Find(merged, ip).value;
      MergedSubnet(existing, byIp, scanned, macAlive, subnet);
      MergedDistinct(existing, byIp, scanned, macAlive);
      SameHost(merged, h, ip);
      ReplacedHolds(rows, subnet, merged, known, now, h);
    }
  }

  /** A scan of `subnet` takes the address of this row of another subnet over: it answered an ARP read, or it is
      stored in the scanned subnet too. */
  ghost predicate Claimed(r: Row, subnet: string, rows: seq<Row>, known: set<string>, arp: map<string, string>) {
    && r.host.ip != "" && IfNull(r.host.subnet) != subnet && Strip(r.host.ip) !in known
    && (r.host.ip in arp || Has(HostsOf(rows, subnet), r.host.ip))
  }

  /** The same, told from the script. */
  ghost predicate ClaimedBy(r: Row, ips: seq<string>, vrfCapable: bool, w: Script, subnet: string, rows: seq<Row>,
                            known: set<string>)
  {
    && r.host.ip != "" && IfNull(r.host.subnet) != subnet && Strip(r.host.ip) !in known
    && (Answers(ips, vrfCapable, w, r.host.ip) || Has(HostsOf(rows, subnet), r.host.ip))
  }

  lemma SameClaim(r: Row, ips: seq<string>, vrfCapable: bool, w: Script, subnet: string, rows: seq<Row>,
                  known: set<string>, arp: map<string, string>)
    requires r.host.ip in arp <==> Answers(ips, vrfCapable, w, r.host.ip)
    ensures Claimed(r, subnet, rows, known, arp) <==> ClaimedBy(r, ips, vrfCapable, w, subnet, rows, known)
  {
  }

  lemma OtherSubnets(rows: seq<Row>, subnet: string, merged: seq<Host>, known: set<string>, now: int, existing: seq<Host>,
                     byIp: seq<Host>, arp: map<string, string>, scanned: Option<set<string>>, macAlive: set<string>)
    requires existing == HostsOf(rows, subnet) && DistinctIps(existing)
    requires merged == Merged(existing, byIp, scanned, macAlive) && forall h :: h in byIp ==> h.subnet == Some(subnet)
    requires forall ip :: ip in arp <==> Has(byIp, ip)
    ensures forall r: Row :: r.host.subnet != Some(subnet) ==>
      (r in Replaced(rows, subnet, merged, known, now) <==> r in rows && !Claimed(r, subnet, rows, known, arp))
    ensures subnet != "" && OneRowPerIp(rows) ==> OneRowPerIp(Replaced(rows, subnet, merged, known, now))
  {
    hide Kept, KeptAll, Merged, Replaced, Strip, Find, HostsOf, OneRowPerIp;
    MergedSubnet(existing, byIp, scanned, macAlive, subnet);
    ReplacedOthers(rows, subnet, merged, known, now);
    forall r: Row ensures TakenOver(r, subnet, merged, known) <==> Claimed(r, subnet, rows, known, arp) {
      MergedHas(existing, byIp, scanned, macAlive, r.host.ip);
      FindMember(merged, r.host.ip);
    }
    if subnet != "" && OneRowPerIp(rows) {
      ReplacedKeeps(rows, subnet, merged, known, now);
    }
  }

  lemma SeenHosts(rows: seq<Row>, subnet: string, merged: seq<Host>, known: set<string>, now: int, existing: seq<Host>,
                  byIp: seq<Host>, scanned: Option<set<string>>, macAlive: set<string>)
    requires DistinctIps(existing) && merged == Merged(existing, byIp, scanned, macAlive)
    ensures forall m :: m in HostsOf(Replaced(rows, subnet, merged, known, now), subnet) && Has(byIp, m.ip) ==> m in byIp
    ensures forall m :: m in HostsOf(Replaced(rows, subnet, merged, known, now), subnet) ==> Strip(m.ip) !in known
  {
    hide Kept, KeptAll, Replaced, Strip, Find, HostsOf;
    var result := Replaced(rows, subnet, merged, known, now);
    HostsOfMembers(result, subnet);
    ReplacedOrigin(rows, subnet, merged, known, now);
    KeptMembers(existing, byIp, scanned, macAlive);
    forall m | m in HostsOf(result, subnet) && Has(byIp, m.ip) ensures m in byIp {
      if m !in byIp {
        assert m in KeptAll(existing, byIp, scanned, macAlive);
        var g :| g in existing && !Has(byIp, g.ip) && m == Kept(g, scanned, macAlive);
        KeptIp(g, scanned, macAlive);
        assert false;
      }
    }
  }

  lemma MergedSubnet(existing: seq<Host>, byIp: seq<Host>, scanned: Option<set<string>>, macAlive: set<string>, subnet: string)
    requires DistinctIps(existing)
    requires forall h :: h in byIp || h in existing ==> h.subnet == Some(subnet)
    ensures forall m :: m in Merged(existing, byIp, scanned, macAlive) ==> m.subnet == Some(subnet)
  {
    hide Kept, KeptAll, Find;
    KeptMembers(existing, byIp, scanned, macAlive);
    forall m | m in KeptAll(existing, byIp, scanned, macAlive) ensures m.subnet == Some(subnet) {
      var ex :| ex in existing && !Has(byIp, ex.ip) && m == Kept(ex, scanned, macAlive);
      KeptIp(ex, scanned, macAlive);
    }
  }

  lemma SilentHosts(rows: seq<Row>, subnet: string, merged: seq<Host>, known: set<string>, now: int, existing: seq<Host>,
                    byIp: seq<Host>, scanned: Option<set<string>>, macAlive: set<string>)
    requires existing == HostsOf(rows, subnet) && DistinctIps(existing) && DistinctIps(byIp)
    requires merged == Merged(existing, byIp, scanned, macAlive)
    ensures forall ex, m ::
      ex in existing && m in HostsOf(Replaced(rows, subnet, merged, known, now), subnet) && m.ip == ex.ip ==>
      Has(byIp, ex.ip) || m == Kept(ex, scanned, macAlive)
  {
    hide Kept, Replaced, Strip, Find, KeptAll;
    var result := Replaced(rows, subnet, merged, known, now);
    HostsOfMembers(result, subnet);
    ReplacedOrigin(rows, subnet, merged, known, now);
    KeptMembers(existing, byIp, scanned, macAlive);
    forall ex, m | ex in existing && m in HostsOf(result, subnet) && m.ip == ex.ip && !Has(byIp, ex.ip)
      ensures m == Kept(ex, scanned, macAlive)
    {
      assert m in merged;
      FindMember(byIp, m.ip);
      assert m in KeptAll(existing, byIp, scanned, macAlive);
      var g :| g in existing && !Has(byIp, g.ip) && m == Kept(g, scanned, macAlive);
      KeptIp(g, scanned, macAlive);
      SameHost(existing, ex, m.ip);
    }
  }
}

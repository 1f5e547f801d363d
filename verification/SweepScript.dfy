/** What the loop of a band scan does, told from its script alone: which turns take place, which addresses they
    ping, which ARP reads are made, and what the scan ends with. */
module SweepScript {
  import opened Wrappers
  import opened BandSweep

  // ---- The turns that take place ----

  /** How many addresses the first `n` turns pass over, whether or not their pings succeed. */
  function Passed(w: Script, n: nat): nat { if n == 0 then 0 else Passed(w, n - 1) + if w.ping(n - 1).SessionDead? then 0 else 1 }

  /** How many sessions they lose. */
  function Lost(w: Script, n: nat): nat { if n == 0 then 0 else Lost(w, n - 1) + if w.ping(n - 1).SessionDead? then 1 else 0 }

  /** Turn `n` passes over its address, and the number of addresses passed over is then a multiple of 32. */
  predicate Reads(w: Script, n: nat) { !w.stop(n) && !w.ping(n).SessionDead? && Passed(w, n + 1) % 32 == 0 }

  /** The exception that turn `n` ends with: of a reconnect, of which there are five, or of its ARP read. */
  function Raises(w: Script, n: nat): Option<string> {
    if !w.stop(n) && w.ping(n).SessionDead? && Lost(w, n) < 5 && w.reconnect(n).Refused? then Some(w.reconnect(n).message)
    else if Reads(w, n) && w.chunk(n).ReadFailed? then Some(w.chunk(n).message)
    else None
  }

  /** The sixth session is lost. */
  predicate GivesUp(w: Script, n: nat) { !w.stop(n) && w.ping(n).SessionDead? && Lost(w, n) >= 5 }

  /** Turn `n` is not the last one, if there are addresses left. */
  predicate GoesOn(w: Script, n: nat) { !w.stop(n) && Raises(w, n).None? && !GivesUp(w, n) }

  ghost predicate Happens(ips: seq<string>, w: Script, n: nat) {
    Passed(w, n) < |ips| && forall m :: 0 <= m < n ==> GoesOn(w, m)
  }

  /** Turn `n` pings `ip`, with this outcome. */
  ghost predicate PingedAt(ips: seq<string>, w: Script, n: nat, ip: string, outcome: PingOutcome) {
    Happens(ips, w, n) && !w.stop(n) && ips[Passed(w, n)] == ip && w.ping(n) == outcome
  }

  ghost predicate ReadHolds(ips: seq<string>, w: Script, n: nat, ip: string) {
    Happens(ips, w, n) && Reads(w, n) && w.chunk(n).Entries? && ip in w.chunk(n).arp
  }

  /** No exception has kept the scan from its last read, and that read succeeds. */
  ghost predicate LastReadMade(ips: seq<string>, w: Script) {
    w.last.Entries? && forall n: nat :: Happens(ips, w, n) ==> Raises(w, n).None?
  }

  /** The latest of the reads that hold `ip` gives it this MAC. */
  ghost predicate LatestRead(ips: seq<string>, w: Script, ip: string, mac: string) {
    if LastReadMade(ips, w) && ip in w.last.arp then w.last.arp[ip] == mac
    else exists n: nat :: LatestAt(ips, w, n, ip, mac)
  }

  ghost predicate LatestAt(ips: seq<string>, w: Script, n: nat, ip: string, mac: string) {
    ReadHolds(ips, w, n, ip) && w.chunk(n).arp[ip] == mac && forall m: nat :: m > n ==> !ReadHolds(ips, w, m, ip)
  }

  ghost predicate NothingRead(ips: seq<string>, w: Script) { forall ip, mac :: !LatestRead(ips, w, ip, mac) }

  /** The scan ends with this entry: from its reads, or, if they brought nothing, from the search through the VRFs. */
  ghost predicate EndsWith(ips: seq<string>, vrfCapable: bool, w: Script, ip: string, mac: string) {
    || LatestRead(ips, w, ip, mac)
    || (NothingRead(ips, w) && vrfCapable && ip in w.fallback && w.fallback[ip] == mac)
  }

  ghost predicate Answers(ips: seq<string>, vrfCapable: bool, w: Script, ip: string) {
    exists mac :: EndsWith(ips, vrfCapable, w, ip, mac)
  }

  // ---- The loop follows ----

  /** The state before turn `n`, but for the addresses noted as not scanned. */
  function ReadUpTo(w: Script, n: nat): map<string, string> {
    if n == 0 then map[]
    else if Reads(w, n - 1) && w.chunk(n - 1).Entries? then ReadUpTo(w, n - 1) + w.chunk(n - 1).arp
    else ReadUpTo(w, n - 1)
  }

  ghost predicate StateAt(w: Script, n: nat, s: Loop) {
    s.i == Passed(w, n) && s.reconnects == Lost(w, n) && s.arp == ReadUpTo(w, n) && s.ending.Running?
  }

  /** The loop ends at turn `n`: no address is left, or the turn does not go on. */
  ghost predicate StopsAt(ips: seq<string>, w: Script, n: nat, f: Loop) {
    && f.arp == ReadUpTo(w, n)
    && (if Passed(w, n) >= |ips| then f.ending.Running? && f.i == Passed(w, n) == |ips|
        else !GoesOn(w, n) && TurnEnds(w, n, f))
  }

  ghost predicate TurnEnds(w: Script, n: nat, f: Loop) {
    if w.stop(n) then f.ending.Stopped? && f.i == Passed(w, n)
    else if GivesUp(w, n) then f.ending.Lost? && f.i == Passed(w, n)
    else Raises(w, n).Some? && f.ending == Raised(Raises(w, n).value) && f.i == Passed(w, n + 1)
  }

  ghost predicate WentOn(ips: seq<string>, w: Script, n: nat) {
    forall m :: 0 <= m < n ==> GoesOn(w, m) && Passed(w, m) < |ips|
  }

  lemma TurnFollows(ips: seq<string>, w: Script, n: nat, s: Loop)
    requires Goes(ips, s) && StateAt(w, n, s)
    ensures var t := Turn(ips, w, n, s);
      if GoesOn(w, n) then StateAt(w, n + 1, t) && t.reconnects <= MAX_RECONNECT
      else t.arp == ReadUpTo(w, n) && TurnEnds(w, n, t) && !t.ending.Running?
  {
  }

  lemma {:induction false} LoopFollows(ips: seq<string>, w: Script, n: nat, s: Loop) returns (last: nat)
    requires s.i <= |ips| && s.reconnects <= MAX_RECONNECT && StateAt(w, n, s) && WentOn(ips, w, n)
    ensures WentOn(ips, w, last) && StopsAt(ips, w, last, Looped(ips, w, n, s))
    decreases |ips| - s.i, MAX_RECONNECT - s.reconnects
  {
    hide Looped, Turn, GoesOn, TurnEnds, ReadUpTo, Passed, Lost;
    LoopedStep(ips, w, n, s);
    last := n;
    if Goes(ips, s) {
      TurnFollows(ips, w, n, s);
      if GoesOn(w, n) {
        TurnDecreases(ips, w, n, s);
        last := LoopFollows(ips, w, n + 1, Turn(ips, w, n, s));
      }
    }
  }

  lemma FinalFollows(ips: seq<string>, w: Script) returns (last: nat)
    ensures WentOn(ips, w, last) && StopsAt(ips, w, last, Final(ips, w))
  {
    last := LoopFollows(ips, w, 0, START);
  }

  lemma {:induction false} PassedGrows(w: Script, m: nat, n: nat)
    requires m <= n
    ensures Passed(w, m) <= Passed(w, n)
  {
    if m < n { PassedGrows(w, m, n - 1); }
  }

  /** The turns that take place are those before the last, and the last if it finds an address. */
  lemma HappensUpTo(ips: seq<string>, w: Script, last: nat, f: Loop, n: nat)
    requires WentOn(ips, w, last) && StopsAt(ips, w, last, f)
    ensures Happens(ips, w, n) <==> n < last || (n == last && Passed(w, last) < |ips|)
  {
    hide GoesOn, TurnEnds, ReadUpTo;
    if n > last { PassedGrows(w, last, n); }
  }

  predicate ReadGives(w: Script, n: nat, ip: string) { Reads(w, n) && w.chunk(n).Entries? && ip in w.chunk(n).arp }

  lemma GivesGoesOn(w: Script, n: nat, ip: string)
    requires ReadGives(w, n, ip)
    ensures GoesOn(w, n)
  {
  }

  lemma {:induction false} UpToIs(w: Script, n: nat, ip: string) returns (m: nat)
    ensures ip !in ReadUpTo(w, n) ==> forall k :: 0 <= k < n ==> !ReadGives(w, k, ip)
    ensures ip in ReadUpTo(w, n) ==>
      && m < n && ReadGives(w, m, ip) && w.chunk(m).arp[ip] == ReadUpTo(w, n)[ip]
      && forall k :: m < k < n ==> !ReadGives(w, k, ip)
  {
    hide Reads;
    m := 0;
    if n > 0 {
      if ReadGives(w, n - 1, ip) {
        m := n - 1;
      } else {
        m := UpToIs(w, n - 1, ip);
      }
    }
  }

  /** What the loop has read. */
  lemma LoopRead(ips: seq<string>, w: Script, ip: string, mac: string)
    ensures
      var arp := Final(ips, w).arp;
      (ip in arp && arp[ip] == mac) <==> exists n: nat :: LatestAt(ips, w, n, ip, mac)
  {
    hide GoesOn, TurnEnds, ReadUpTo, Happens, Reads, WentOn, Passed;
    var f := Final(ips, w);
    var last := FinalFollows(ips, w);
    forall n: nat ensures ReadHolds(ips, w, n, ip) <==> n < last && ReadGives(w, n, ip) {
      HappensUpTo(ips, w, last, f, n);
      if n == last && ReadGives(w, n, ip) { GivesGoesOn(w, n, ip); }
    }
    var m := UpToIs(w, last, ip);
    assert f.arp == ReadUpTo(w, last);
    if ip in f.arp {
      assert LatestAt(ips, w, m, ip, f.arp[ip]);
    }
    if n: nat :| LatestAt(ips, w, n, ip, mac) {
      assert ip in f.arp && n == m;
    }
  }

  lemma LastReadIs(ips: seq<string>, w: Script)
    ensures LastReadMade(ips, w) <==> Exception(Final(ips, w), w).None?
  {
    hide ReadUpTo, Happens, WentOn, Passed, Reads, Lost;
    var f := Final(ips, w);
    var last := FinalFollows(ips, w);
    HappensUpTo(ips, w, last, f, last);
    if n: nat :| Happens(ips, w, n) && Raises(w, n).Some? {
      HappensUpTo(ips, w, last, f, n);
      RaisesEnds(w, n);
      if n < last { WentOnAt(ips, w, last, n); }
    }
  }

  lemma WentOnAt(ips: seq<string>, w: Script, last: nat, n: nat)
    requires WentOn(ips, w, last) && n < last
    ensures GoesOn(w, n)
  {
  }

  lemma RaisesEnds(w: Script, n: nat)
    requires Raises(w, n).Some?
    ensures !GoesOn(w, n) && !w.stop(n) && !GivesUp(w, n)
  {
  }

  lemma UnionIs(ips: seq<string>, w: Script, ip: string, mac: string)
    ensures
      var arp := ArpUnion(Final(ips, w), w);
      (ip in arp && arp[ip] == mac) <==> LatestRead(ips, w, ip, mac)
  {
    hide Final, LatestAt, LastReadMade;
    LoopRead(ips, w, ip, mac);
    LastReadIs(ips, w);
  }

  lemma NothingIs(ips: seq<string>, w: Script)
    ensures ArpUnion(Final(ips, w), w) == map[] <==> NothingRead(ips, w)
  {
    hide Final, LatestRead, ArpUnion;
    var arp := ArpUnion(Final(ips, w), w);
    forall ip, mac ensures (ip in arp && arp[ip] == mac) <==> LatestRead(ips, w, ip, mac) {
      UnionIs(ips, w, ip, mac);
    }
    if arp != map[] {
      var ip :| ip in arp;
      assert LatestRead(ips, w, ip, arp[ip]);
    }
  }

  /** A scan fails exactly when it cannot connect, or when an exception keeps it from its last read and no read
      before has brought anything. */
  lemma FailsIff(ips: seq<string>, vrfCapable: bool, w: Script)
    ensures SweepOf(ips, vrfCapable, w).Failed? <==>
      w.connect.Refused? || (!LastReadMade(ips, w) && NothingRead(ips, w))
  {
    hide Final, LastReadMade, NothingRead, ScannedSet, ArpUnion;
    LastReadIs(ips, w);
    NothingIs(ips, w);
  }

  /** The entries that a scan ends with, told from the script: an address of the last read, if that is made; else
      of the latest read, after a multiple of 32 addresses, that held it; and of the search through the VRFs only if
      no read held anything. */
  lemma EntriesIff(ips: seq<string>, vrfCapable: bool, w: Script, ip: string, mac: string)
    requires SweepOf(ips, vrfCapable, w).Swept?
    ensures
      var arp := SweepOf(ips, vrfCapable, w).arp;
      (ip in arp && arp[ip] == mac) <==> EndsWith(ips, vrfCapable, w, ip, mac)
  {
    hide Final, LatestRead, NothingRead, ScannedSet, ArpUnion;
    UnionIs(ips, w, ip, mac);
    NothingIs(ips, w);
  }

  // ---- Pings and endings ----

  lemma NoneAfter(ips: seq<string>, w: Script, n: nat, m: nat)
    requires n <= m && (Passed(w, n) >= |ips| || (n < m && !GoesOn(w, n)))
    ensures !Happens(ips, w, m)
  {
    hide GoesOn;
    PassedGrows(w, n, m);
  }

  ghost predicate PingedFrom(ips: seq<string>, w: Script, n: nat, p: (string, PingOutcome)) {
    exists m: nat :: n <= m && PingedAt(ips, w, m, p.0, p.1)
  }

  lemma {:induction false} PingsFollow(ips: seq<string>, w: Script, n: nat, s: Loop, p: (string, PingOutcome))
    requires s.i <= |ips| && s.reconnects <= MAX_RECONNECT && StateAt(w, n, s) && WentOn(ips, w, n)
    ensures p in Pings(ips, w, n, s) <==> PingedFrom(ips, w, n, p)
    decreases |ips| - s.i, MAX_RECONNECT - s.reconnects
  {
    hide Turn, GoesOn, TurnEnds, ReadUpTo, Passed, Lost;
    if Goes(ips, s) {
      TurnFollows(ips, w, n, s);
      var t := Turn(ips, w, n, s);
      var own := if w.stop(n) then [] else [(ips[s.i], w.ping(n))];
      assert p in own <==> PingedAt(ips, w, n, p.0, p.1);
      if GoesOn(w, n) {
        TurnDecreases(ips, w, n, s);
        PingsFollow(ips, w, n + 1, t, p);
      } else {
        forall m: nat | n < m ensures !Happens(ips, w, m) { NoneAfter(ips, w, n, m); }
        assert Pings(ips, w, n + 1, t) == [];
      }
    } else {
      forall m: nat | n <= m ensures !Happens(ips, w, m) { NoneAfter(ips, w, n, m); }
    }
  }

  /** The pings that are completed, from the script. */
  lemma CompletedIff(ips: seq<string>, w: Script, ip: string)
    ensures ip in CompletedPings(ips, w) <==> exists n: nat :: PingedAt(ips, w, n, ip, Completed)
    ensures ip in EndedPings(ips, w) <==>
      exists n: nat, outcome :: PingedAt(ips, w, n, ip, outcome) && !outcome.SessionDead?
  {
    hide Pings, PingedAt;
    PingsFollow(ips, w, 0, START, (ip, Completed));
    PingsFollow(ips, w, 0, START, (ip, AddressError));
    assert ip in Ended(PingLog(ips, w), Completed) <==> (ip, Completed) in PingLog(ips, w);
    assert ip in Ended(PingLog(ips, w), AddressError) <==> (ip, AddressError) in PingLog(ips, w);
    if n: nat, outcome :| PingedAt(ips, w, n, ip, outcome) && !outcome.SessionDead? {
      assert outcome == Completed || outcome == AddressError;
      assert PingedFrom(ips, w, 0, (ip, outcome));
    }
  }

  /** Turn `n` ends the loop with addresses left, without a stop, and the exception that counts in the end has an
      empty message: its own, or that of the last read behind a lost session. */
  ghost predicate MutedAt(ips: seq<string>, w: Script, n: nat) {
    && Happens(ips, w, n)
    && (|| (Raises(w, n) == Some("") && Passed(w, n + 1) < |ips|)
        || (GivesUp(w, n) && w.last == ReadFailed("")))
  }

  lemma MutedIff(ips: seq<string>, w: Script)
    ensures MutedSweep(ips, w) <==> exists n: nat :: MutedAt(ips, w, n)
  {
    hide ReadUpTo, Happens, WentOn, Passed, Reads, Lost, Raises, GivesUp;
    var f := Final(ips, w);
    var last := FinalFollows(ips, w);
    HappensUpTo(ips, w, last, f, last);
    MutedLast(ips, w, last, f);
    if n: nat :| MutedAt(ips, w, n) {
      HappensUpTo(ips, w, last, f, n);
      if n < last { WentOnAt(ips, w, last, n); }
    }
  }

  lemma MutedLast(ips: seq<string>, w: Script, last: nat, f: Loop)
    requires StopsAt(ips, w, last, f) && (Happens(ips, w, last) <==> Passed(w, last) < |ips|)
    ensures Muted(ips, f.i, StoppedAt(f), PartialError(f, w)) <==> MutedAt(ips, w, last)
  {
    hide ReadUpTo, Happens, Passed, Lost;
    if f.ending.Lost? { assert SESSION_LOST != "" by { assert |SESSION_LOST| > 0; } }
  }

  /** The error with which the scan ends and which it reports: of a turn, of the last read, or of the session. */
  ghost predicate ErrorAt(ips: seq<string>, w: Script, n: nat) {
    && Happens(ips, w, n)
    && (|| (Raises(w, n).Some? && Raises(w, n) != Some(""))
        || (GivesUp(w, n) && w.last != ReadFailed("")))
  }

  ghost predicate LastReadError(ips: seq<string>, w: Script) {
    w.last.ReadFailed? && w.last.message != "" && forall n: nat :: Happens(ips, w, n) ==> Raises(w, n).None?
  }

  /** Nobody stops the run, it reports no error, and no ping ends with one of its own. */
  ghost predicate CleanRun(ips: seq<string>, w: Script) {
    && !LastReadError(ips, w)
    && forall n: nat :: Happens(ips, w, n) ==> !w.stop(n) && !w.ping(n).AddressError? && !ErrorAt(ips, w, n)
  }

  lemma CleanIff(ips: seq<string>, w: Script)
    ensures Clean(ips, w) <==> CleanRun(ips, w)
  {
    hide Happens, WentOn, Pings, Passed, Lost, Reads, Raises, GivesUp, StopsAt, ReadUpTo, Final, PartialError, Ended;
    var f := Final(ips, w);
    var last := FinalFollows(ips, w);
    forall n: nat ensures Happens(ips, w, n) <==> n < last || (n == last && Passed(w, last) < |ips|) {
      HappensUpTo(ips, w, last, f, n);
    }
    forall n: nat | n < last ensures !w.stop(n) && !ErrorAt(ips, w, n) && Raises(w, n).None? {
      WentOnAt(ips, w, last, n);
    }
    EndTells(ips, w, last, f);
    ErrorsLogged(ips, w);
  }

  lemma ErrorsLogged(ips: seq<string>, w: Script)
    ensures Ended(PingLog(ips, w), AddressError) == {} <==>
      forall n: nat :: Happens(ips, w, n) && !w.stop(n) ==> !w.ping(n).AddressError?
  {
    hide Happens, Pings;
    var bad := Ended(PingLog(ips, w), AddressError);
    forall ip ensures ip in bad <==> PingedFrom(ips, w, 0, (ip, AddressError)) {
      PingsFollow(ips, w, 0, START, (ip, AddressError));
      assert ip in bad <==> (ip, AddressError) in PingLog(ips, w);
    }
    if n: nat :| Happens(ips, w, n) && !w.stop(n) && w.ping(n).AddressError? {
      HappensAt(ips, w, n);
      assert PingedAt(ips, w, n, ips[Passed(w, n)], AddressError);
      assert ips[Passed(w, n)] in bad;
    }
  }

  lemma HappensAt(ips: seq<string>, w: Script, n: nat)
    requires Happens(ips, w, n)
    ensures Passed(w, n) < |ips|
  {
  }

  /** What the end of the loop and the last read make of the scan. */
  lemma EndTells(ips: seq<string>, w: Script, last: nat, f: Loop)
    requires StopsAt(ips, w, last, f) && (Happens(ips, w, last) <==> Passed(w, last) < |ips|)
    ensures StoppedAt(f).Some? <==> Happens(ips, w, last) && w.stop(last)
    ensures Truthy(PartialError(f, w)) <==>
      || ErrorAt(ips, w, last)
      || (w.last.ReadFailed? && w.last.message != "" && !(Happens(ips, w, last) && Raises(w, last).Some?))
  {
    hide ReadUpTo, Happens, Passed, Lost;
    assert |SESSION_LOST| > 0;
  }

  // ---- Who is judged ----

  /** An address that did not answer may be declared offline: its ping was completed, or never came to an end in a
      muted run; or the run was clean, for an address outside the band. */
  ghost predicate UpForJudgement(ips: seq<string>, w: Script, ip: string) {
    if ip in ips then
      || (exists n: nat :: PingedAt(ips, w, n, ip, Completed))
      || ((exists n: nat :: MutedAt(ips, w, n)) &&
          forall n: nat, outcome :: PingedAt(ips, w, n, ip, outcome) ==> outcome == SessionDead)
    else CleanRun(ips, w)
  }

  /** The scan judges by the script: those up for judgement and no others. */
  lemma JudgedByScript(ips: seq<string>, vrfCapable: bool, w: Script, ip: string)
    requires Distinct(ips) && SweepOf(ips, vrfCapable, w).Swept? && !Answers(ips, vrfCapable, w, ip)
    ensures Judged(SweepOf(ips, vrfCapable, w).scanned, ip) <==> UpForJudgement(ips, w, ip)
  {
    hide SweepOf, PingedAt, MutedAt, CleanRun, Clean, MutedSweep, CompletedPings, EndedPings, Judged, EndsWith;
    AnswersIff(ips, vrfCapable, w, ip);
    if ip in ips {
      SweepJudgesIff(ips, vrfCapable, w, ip);
      CompletedIff(ips, w, ip);
      MutedIff(ips, w);
      if n: nat :| PingedAt(ips, w, n, ip, Completed) {
        assert !Completed.SessionDead?;
      }
    } else {
      SweepOutside(ips, vrfCapable, w, ip);
      CleanIff(ips, w);
    }
  }

  lemma AnswersIff(ips: seq<string>, vrfCapable: bool, w: Script, ip: string)
    requires SweepOf(ips, vrfCapable, w).Swept?
    ensures
      var arp := SweepOf(ips, vrfCapable, w).arp;
      && (ip in arp <==> Answers(ips, vrfCapable, w, ip)) && (ip in arp ==> EndsWith(ips, vrfCapable, w, ip, arp[ip]))
  {
    hide SweepOf, EndsWith;
    var arp := SweepOf(ips, vrfCapable, w).arp;
    forall mac ensures (ip in arp && arp[ip] == mac) <==> EndsWith(ips, vrfCapable, w, ip, mac) {
      EntriesIff(ips, vrfCapable, w, ip, mac);
    }
    if ip in arp { assert EndsWith(ips, vrfCapable, w, ip, arp[ip]); }
  }
}

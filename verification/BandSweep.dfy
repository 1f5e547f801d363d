/** The ping loop of a band scan (`collect_band` in core/facility.py): pings with reconnects, ARP reads in
    between, and the set of addresses that may be declared offline afterwards.

    Whatever the switch and the user do is a script: what the answer is at every turn of the loop. */
module BandSweep {
  import opened Wrappers

  const MAX_RECONNECT: nat := 5

  const SWEEP_CHUNK: nat := 32

  datatype PingOutcome = Completed | AddressError | SessionDead

  /** A read of the ARP table: the entries inside the band, or an exception with its message. */
  datatype ArpOutcome = Entries(arp: map<string, string>) | ReadFailed(message: string)

  datatype ConnectOutcome = Connected | Refused(message: string)

  /** At turn n of the loop: does the user ask to stop, how does the ping end, does a reconnect succeed, and
      what does the ARP read after a chunk give. Before the loop the first connection, after it the last read
      and the search through all VRFs. */
  datatype Script = Script(connect: ConnectOutcome, stop: nat -> bool, ping: nat -> PingOutcome,
                           reconnect: nat -> ConnectOutcome, chunk: nat -> ArpOutcome, last: ArpOutcome,
                           fallback: map<string, string>)

  // ---- The loop ----

  datatype Ending = Running | Stopped | Lost | Raised(message: string)

  datatype Loop = Loop(i: nat, reconnects: nat, unscanned: set<string>, arp: map<string, string>, ending: Ending)

  const START: Loop := Loop(0, 0, {}, map[], Running)

  predicate Goes(ips: seq<string>, s: Loop) { s.ending.Running? && s.i < |ips| && s.reconnects <= MAX_RECONNECT }

  /** After every 32nd address the ARP table is read. */
  function AfterPing(w: Script, n: nat, s: Loop): Loop {
    if s.i % SWEEP_CHUNK != 0 then s
    else match w.chunk(n)
      case Entries(entries) => s.(arp := s.arp + entries)
      case ReadFailed(message) => s.(ending := Raised(message))
  }

  /** One turn: a dead session is reconnected and the address tried again, up to five times in all. */
  function Turn(ips: seq<string>, w: Script, n: nat, s: Loop): Loop
    requires Goes(ips, s)
  {
    if w.stop(n) then s.(ending := Stopped)
    else match w.ping(n)
      case Completed => AfterPing(w, n, s.(i := s.i + 1))
      case AddressError => AfterPing(w, n, s.(i := s.i + 1, unscanned := s.unscanned + {ips[s.i]}))
      case SessionDead =>
        if s.reconnects == MAX_RECONNECT then s.(ending := Lost)
        else match w.reconnect(n)
          case Connected => s.(reconnects := s.reconnects + 1)
          case Refused(message) => s.(reconnects := s.reconnects + 1, ending := Raised(message))
  }

  function Looped(ips: seq<string>, w: Script, n: nat, s: Loop): (f: Loop)
    ensures s.i <= |ips| ==> s.i <= f.i <= |ips|
    decreases |ips| - s.i, MAX_RECONNECT - s.reconnects, if s.ending.Running? then 1 else 0
  {
    if Goes(ips, s) then Looped(ips, w, n + 1, Turn(ips, w, n, s)) else s
  }

  /** The ping commands of the run and how each of them ended. */
  function Pings(ips: seq<string>, w: Script, n: nat, s: Loop): seq<(string, PingOutcome)>
    decreases |ips| - s.i, MAX_RECONNECT - s.reconnects, if s.ending.Running? then 1 else 0
  {
    if Goes(ips, s)
    then (if w.stop(n) then [] else [(ips[s.i], w.ping(n))]) + Pings(ips, w, n + 1, Turn(ips, w, n, s))
    else []
  }

  function Final(ips: seq<string>, w: Script): Loop { Looped(ips, w, 0, START) }

  function PingLog(ips: seq<string>, w: Script): seq<(string, PingOutcome)> { Pings(ips, w, 0, START) }

  /** The addresses whose ping ended so. */
  function Ended(log: seq<(string, PingOutcome)>, outcome: PingOutcome): set<string> {
    set p | p in log && p.1 == outcome :: p.0
  }

  /** The addresses whose ping command was really completed in the run. */
  function CompletedPings(ips: seq<string>, w: Script): set<string> { Ended(PingLog(ips, w), Completed) }

  /** ... and those whose ping at least ended, completed or with an error of its own. */
  function EndedPings(ips: seq<string>, w: Script): set<string> {
    CompletedPings(ips, w) + Ended(PingLog(ips, w), AddressError)
  }

  // ---- Who may be judged ----

  ghost predicate Distinct(ips: seq<string>) { forall i, j :: 0 <= i < j < |ips| ==> ips[i] != ips[j] }

  function SetOf(ips: seq<string>): set<string> { set ip | ip in ips }

  /** Python's truth of an optional text: an empty message counts as no error at all. */
  predicate Truthy(message: Option<string>) { message.Some? && message.value != "" }

  /** `scanned_ips` as handed to the merge; None stands for "the whole band". */
  function ScannedSet(ips: seq<string>, i: nat, stoppedAt: Option<nat>, partialError: Option<string>,
                      unscanned: set<string>, arp: set<string>): Option<set<string>>
    requires i <= |ips| && (stoppedAt.Some? ==> stoppedAt.value == i)
  {
    var base := if stoppedAt.Some? then Some(SetOf(ips[..stoppedAt.value]) + arp)
                else if Truthy(partialError) then Some(SetOf(ips[..i]) + arp)
                else None;
    if unscanned == {} then base
    else if base.None? then Some((SetOf(ips) - unscanned) + arp)
    else Some(base.value - (unscanned - arp))
  }

  predicate Judged(scanned: Option<set<string>>, ip: string) { scanned.Some? ==> ip in scanned.value }

  /** The loop ended early on an exception whose message is empty, and nobody had asked it to stop. */
  predicate Muted(ips: seq<string>, i: nat, stoppedAt: Option<nat>, partialError: Option<string>) {
    i < |ips| && stoppedAt.None? && !Truthy(partialError)
  }

  /** With the loop at address `i`, an address that is in no ARP read is up for judgement exactly when
      its ping was completed, unless the scan was muted; then addresses never pinged are judged too. */
  lemma JudgedIffCompleted(ips: seq<string>, i: nat, stoppedAt: Option<nat>, partialError: Option<string>,
                           unscanned: set<string>, arp: set<string>, ip: string)
    requires Distinct(ips) && i <= |ips| && (stoppedAt.Some? ==> stoppedAt.value == i) && unscanned <= SetOf(ips[..i])
    requires ip !in arp && ip in ips
    ensures
      var judged := Judged(ScannedSet(ips, i, stoppedAt, partialError, unscanned, arp), ip);
      var completed := ip in SetOf(ips[..i]) - unscanned;
      (judged <==> completed) <==> !(Muted(ips, i, stoppedAt, partialError) && ip !in SetOf(ips[..i]))
  {
    assert SetOf(ips[..i]) <= SetOf(ips);
    assert ips[..|ips|] == ips;
  }

  function StoppedAt(f: Loop): Option<nat> { if f.ending.Stopped? then Some(f.i) else None }

  const SESSION_LOST: string := "session lost"

  /** An exception out of the loop or out of the last read. */
  function Exception(f: Loop, w: Script): Option<string> {
    if f.ending.Raised? then Some(f.ending.message) else if w.last.ReadFailed? then Some(w.last.message) else None
  }

  function ArpUnion(f: Loop, w: Script): map<string, string> {
    if f.ending.Raised? || w.last.ReadFailed? then f.arp else f.arp + w.last.arp
  }

  function PartialError(f: Loop, w: Script): Option<string> {
    if Exception(f, w).Some? then Exception(f, w) else if f.ending.Lost? then Some(SESSION_LOST) else None
  }

  /** What the scan hands to the merge, or Failed where the exception goes to the caller. */
  datatype Outcome = Failed | Swept(arp: map<string, string>, scanned: Option<set<string>>)

  /** An exception with nothing read so far is raised again. */
  function SweepOf(ips: seq<string>, vrfCapable: bool, w: Script): Outcome {
    var f := Final(ips, w);
    var read := ArpUnion(f, w);
    if w.connect.Refused? || (Exception(f, w).Some? && read == map[]) then Failed
    else
      var arp := if read == map[] && vrfCapable then w.fallback else read;
      Swept(arp, ScannedSet(ips, f.i, StoppedAt(f), PartialError(f, w), f.unscanned, arp.Keys))
  }

  /** The run broke off with an exception whose message is empty. */
  predicate MutedSweep(ips: seq<string>, w: Script) {
    var f := Final(ips, w);
    Muted(ips, f.i, StoppedAt(f), PartialError(f, w))
  }

  method Sweep(ips: seq<string>, vrfCapable: bool, w: Script) returns (r: Outcome)
    ensures r == SweepOf(ips, vrfCapable, w)
  {
    hide ScannedSet;
    if w.connect.Refused? {
      return Failed;
    }
    var i, reconnects, unscanned, arp: map<string, string> := 0, 0, {}, map[];
    var stoppedAt: Option<nat>, partialError: Option<string>, raised: Option<string> := None, None, None;
    var n := 0;
    ghost var f := Loop(i, reconnects, unscanned, arp, Running);
    while i < |ips|
      invariant 0 <= i <= |ips| && reconnects <= MAX_RECONNECT
      invariant stoppedAt.None? && partialError.None? && raised.None?
      invariant f == Loop(i, reconnects, unscanned, arp, Running) && Final(ips, w) == Looped(ips, w, n, f)
      decreases |ips| - i, MAX_RECONNECT - reconnects
    {
      hide Looped, AfterPing;
      LoopedStep(ips, w, n, f);
      f := Turn(ips, w, n, f);
      if w.stop(n) {
        stoppedAt := Some(i);
        break;
      }
      var ping := w.ping(n);
      if ping == SessionDead {
        if reconnects < MAX_RECONNECT {
          reconnects := reconnects + 1;
          if w.reconnect(n).Refused? {
            raised := Some(w.reconnect(n).message);
            break;
          }
          n := n + 1;
          continue;
        }
        partialError := Some(SESSION_LOST);
        break;
      }
      if ping == AddressError {
        unscanned := unscanned + {ips[i]};
      }
      i := i + 1;
      AfterPingCases(w, n, Loop(i, reconnects, unscanned, arp, Running));
      if i % SWEEP_CHUNK == 0 {
        match w.chunk(n) {
          case ReadFailed(message) =>
            raised := Some(message);
            break;
          case Entries(entries) =>
            arp := arp + entries;
        }
      }
      n := n + 1;
    }
    assert f == Final(ips, w) && f.i == i && f.unscanned == unscanned && f.arp == arp;
    assert stoppedAt == StoppedAt(f) && (raised.Some? <==> f.ending.Raised?);
    if raised.None? {
      match w.last {
        case ReadFailed(message) => raised := Some(message);
        case Entries(entries) => arp := arp + entries;
      }
    }
    if raised.Some? {
      if arp == map[] {
        return Failed;
      }
      partialError := raised;
    }
    if arp == map[] && vrfCapable {
      arp := w.fallback;
    }
    r := Swept(arp, ScannedSet(ips, i, stoppedAt, partialError, unscanned, arp.Keys));
  }

  lemma LoopedStep(ips: seq<string>, w: Script, n: nat, s: Loop)
    ensures Looped(ips, w, n, s) == if Goes(ips, s) then Looped(ips, w, n + 1, Turn(ips, w, n, s)) else s
    ensures Goes(ips, s) && !Turn(ips, w, n, s).ending.Running? ==> Looped(ips, w, n, s) == Turn(ips, w, n, s)
  {
    hide Turn;
  }

  lemma AfterPingCases(w: Script, n: nat, s: Loop)
    ensures s.i % SWEEP_CHUNK != 0 ==> AfterPing(w, n, s) == s
    ensures s.i % SWEEP_CHUNK == 0 && w.chunk(n).Entries? ==> AfterPing(w, n, s) == s.(arp := s.arp + w.chunk(n).arp)
    ensures s.i % SWEEP_CHUNK == 0 && w.chunk(n).ReadFailed? ==> AfterPing(w, n, s) == s.(ending := Raised(w.chunk(n).message))
  {
  }

  // ---- The log tells what the loop knows ----

  lemma TurnKeeps(ips: seq<string>, w: Script, n: nat, s: Loop)
    requires Goes(ips, s)
    ensures
      var t := Turn(ips, w, n, s);
      if w.stop(n) || w.ping(n) == SessionDead then t.i == s.i && t.unscanned == s.unscanned
      else t.i == s.i + 1 && t.unscanned == s.unscanned + (if w.ping(n) == AddressError then {ips[s.i]} else {})
  {
  }

  lemma EndedCons(p: (string, PingOutcome), log: seq<(string, PingOutcome)>, outcome: PingOutcome)
    ensures Ended([p] + log, outcome) == (if p.1 == outcome then {p.0} else {}) + Ended(log, outcome)
  {
    assert forall q :: q in [p] + log <==> q == p || q in log;
  }

  lemma Slice(ips: seq<string>, i: nat, j: nat)
    requires i < j <= |ips|
    ensures SetOf(ips[i..j]) == {ips[i]} + SetOf(ips[i + 1..j])
    ensures Distinct(ips) ==> ips[i] !in SetOf(ips[i + 1..j])
  {
    assert ips[i..j] == [ips[i]] + ips[i + 1..j];
  }

  /** From any turn on: the addresses passed over are those whose ping ended, and the ones noted as not
      scanned are those that ended with an error. */
  lemma {:induction false} LogTells(ips: seq<string>, w: Script, n: nat, s: Loop)
    requires s.i <= |ips|
    ensures
      var f, log := Looped(ips, w, n, s), Pings(ips, w, n, s);
      && f.unscanned == s.unscanned + Ended(log, AddressError)
      && Ended(log, Completed) + Ended(log, AddressError) == SetOf(ips[s.i..f.i])
      && (Distinct(ips) ==> Ended(log, Completed) !! Ended(log, AddressError))
    decreases |ips| - s.i, MAX_RECONNECT - s.reconnects, if s.ending.Running? then 1 else 0
  {
    if Goes(ips, s) {
      hide Turn, Looped, Ended, Distinct, SetOf;
      TurnKeeps(ips, w, n, s);
      LoopedStep(ips, w, n, s);
      var t := Turn(ips, w, n, s);
      TurnDecreases(ips, w, n, s);
      LogTells(ips, w, n + 1, t);
      var f, log := Looped(ips, w, n + 1, t), Pings(ips, w, n + 1, t);
      if w.stop(n) {
        assert [] + log == log;
      } else {
        EndedCons((ips[s.i], w.ping(n)), log, Completed);
        EndedCons((ips[s.i], w.ping(n)), log, AddressError);
        if w.ping(n) != SessionDead { Slice(ips, s.i, f.i); }
      }
    } else {
      assert ips[s.i..s.i] == [];
    }
  }

  lemma TurnDecreases(ips: seq<string>, w: Script, n: nat, s: Loop)
    requires Goes(ips, s)
    ensures
      var t := Turn(ips, w, n, s);
      && t.i <= |ips|
      && (t.i > s.i || (t.i == s.i && (t.reconnects > s.reconnects || (t.reconnects == s.reconnects && !t.ending.Running?))))
      && (t.i == s.i ==> t.reconnects <= MAX_RECONNECT)
  {
  }

  /** The main result about the sweep: an address in no ARP read is up for judgement exactly when its ping was
      completed in this run, for every script, unless the sweep was muted; then so are, wrongly, exactly the
      addresses whose ping never came to an end. */
  lemma SweepJudgesIff(ips: seq<string>, vrfCapable: bool, w: Script, ip: string)
    requires Distinct(ips) && ip in ips
    requires SweepOf(ips, vrfCapable, w).Swept? && ip !in SweepOf(ips, vrfCapable, w).arp
    ensures
      (Judged(SweepOf(ips, vrfCapable, w).scanned, ip) <==> ip in CompletedPings(ips, w)) <==>
      !(MutedSweep(ips, w) && ip !in EndedPings(ips, w))
  {
    hide Looped, Pings, ScannedSet, Muted, Judged;
    var f := Final(ips, w);
    LogTells(ips, w, 0, START);
    assert ips[0..f.i] == ips[..f.i];
    JudgedIffCompleted(ips, f.i, StoppedAt(f), PartialError(f, w), f.unscanned,
                       SweepOf(ips, vrfCapable, w).arp.Keys, ip);
  }

  /** The run was not stopped, reported no error, and had no ping end with one. */
  predicate Clean(ips: seq<string>, w: Script) {
    var f := Final(ips, w);
    StoppedAt(f).None? && !Truthy(PartialError(f, w)) && Ended(PingLog(ips, w), AddressError) == {}
  }

  /** An address outside the band, which is never pinged, is judged exactly after a clean run; such a run has
      completed every ping of the band, or was muted. */
  lemma SweepOutside(ips: seq<string>, vrfCapable: bool, w: Script, ip: string)
    requires Distinct(ips) && ip !in ips
    requires SweepOf(ips, vrfCapable, w).Swept? && ip !in SweepOf(ips, vrfCapable, w).arp
    ensures Judged(SweepOf(ips, vrfCapable, w).scanned, ip) <==> Clean(ips, w)
    ensures Clean(ips, w) ==> MutedSweep(ips, w) || CompletedPings(ips, w) == SetOf(ips)
  {
    hide Looped, Pings;
    var f := Final(ips, w);
    LogTells(ips, w, 0, START);
    assert ips[0..f.i] == ips[..f.i] && ips[..|ips|] == ips;
    FinishedOr(ips, w, 0, START);
    assert SetOf(ips[..f.i]) <= SetOf(ips);
  }

  /** The loop ends by reaching the end of the band, or for a reason. */
  lemma {:induction false} FinishedOr(ips: seq<string>, w: Script, n: nat, s: Loop)
    requires s.i <= |ips| && s.reconnects <= MAX_RECONNECT
    ensures Looped(ips, w, n, s).i == |ips| || !Looped(ips, w, n, s).ending.Running?
    decreases |ips| - s.i, MAX_RECONNECT - s.reconnects, if s.ending.Running? then 1 else 0
  {
    if Goes(ips, s) {
      hide Turn, Looped;
      LoopedStep(ips, w, n, s);
      TurnDecreases(ips, w, n, s);
      TurnReconnects(ips, w, n, s);
      FinishedOr(ips, w, n + 1, Turn(ips, w, n, s));
    }
  }

  lemma TurnReconnects(ips: seq<string>, w: Script, n: nat, s: Loop)
    requires Goes(ips, s)
    ensures Turn(ips, w, n, s).reconnects <= MAX_RECONNECT
  {
  }

  // ---- A muted run ----

  /** 32 completed pings, an ARP read that finds the first address, a dead session, and a reconnect that fails
      without a message. */
  function MutedScript(ips: seq<string>): Script
    requires |ips| > SWEEP_CHUNK
  {
    Script(Connected, n => false, n => if n < SWEEP_CHUNK then Completed else SessionDead, n => Refused(""),
           n => Entries(map[ips[0] := "aa"]), Entries(map[]), map[])
  }

  lemma {:induction false} FirstChunk(ips: seq<string>, k: nat)
    requires |ips| > SWEEP_CHUNK && k < SWEEP_CHUNK
    ensures Final(ips, MutedScript(ips)) == Looped(ips, MutedScript(ips), k, START.(i := k))
  {
    if k > 0 {
      hide Looped, Turn, MutedScript;
      FirstChunk(ips, k - 1);
      LoopedStep(ips, MutedScript(ips), k - 1, START.(i := k - 1));
      TurnInChunk(ips, k - 1);
    }
  }

  lemma TurnInChunk(ips: seq<string>, k: nat)
    requires |ips| > SWEEP_CHUNK && k + 1 < SWEEP_CHUNK
    ensures Turn(ips, MutedScript(ips), k, START.(i := k)) == START.(i := k + 1)
  {
  }

  /** In every band of more than 32 addresses such a run puts the 33rd up for judgement, although its ping was
      never completed. */
  lemma MutedAbortJudgesUnpinged(ips: seq<string>, vrfCapable: bool)
    requires Distinct(ips) && |ips| > SWEEP_CHUNK
    ensures
      var w, ip := MutedScript(ips), ips[SWEEP_CHUNK];
      && SweepOf(ips, vrfCapable, w) == Swept(map[ips[0] := "aa"], None)
      && ip != ips[0] && ip !in CompletedPings(ips, w) && Judged(SweepOf(ips, vrfCapable, w).scanned, ip)
  {
    hide Looped, Pings;
    var w, ip, last := MutedScript(ips), ips[SWEEP_CHUNK], SWEEP_CHUNK - 1;
    FirstChunk(ips, last);
    var s, arp := START.(i := last), map[ips[0] := "aa"];
    LoopedStep(ips, w, last, s);
    var t := Turn(ips, w, last, s);
    assert map[] + arp == arp && ips[0] in arp;
    assert t == Loop(SWEEP_CHUNK, 0, {}, arp, Running);
    LoopedStep(ips, w, SWEEP_CHUNK, t);
    var f := Final(ips, w);
    assert f == Loop(SWEEP_CHUNK, 1, {}, arp, Raised(""));
    LogTells(ips, w, 0, START);
    assert ips[0..SWEEP_CHUNK] == ips[..SWEEP_CHUNK] && ip !in SetOf(ips[..SWEEP_CHUNK]);
  }
}

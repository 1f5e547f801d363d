/** The sliding-window rate limiter of app.py: a log of accepted request times per key, pruned on use and
    swept when more than 512 keys have piled up. */
module RateLimit {
  /** `endpoint:identifier`; the limit of a key is that of its endpoint. */
  type Key = string

  const GC_THRESHOLD: nat := 512

  datatype Request = Request(key: Key, now: real)

  predicate Young(now: real, t: real, window: real) { now - t < window }

  /** `[t for t in log if now - t < window_seconds]` */
  function Recent(log: seq<real>, now: real, window: real): seq<real> {
    if log == [] then []
    else (if Young(now, log[0], window) then [log[0]] else []) + Recent(log[1..], now, window)
  }

  predicate Expired(log: seq<real>, now: real, window: real) { forall i :: 0 <= i < |log| ==> !Young(now, log[i], window) }

  function Log(tracker: map<Key, seq<real>>, key: Key): seq<real> { if key in tracker then tracker[key] else [] }

  function Sweep(tracker: map<Key, seq<real>>, now: real, window: real): map<Key, seq<real>> {
    if |tracker| > GC_THRESHOLD then map k | k in tracker && !Expired(tracker[k], now, window) :: tracker[k] else tracker
  }

  /** The decision and the tracker after it. A key without an entry is let in without looking at the limit. */
  function Decide(tracker: map<Key, seq<real>>, r: Request, limit: int, window: real): (map<Key, seq<real>>, bool) {
    var recent := Recent(Log(tracker, r.key), r.now, window);
    if r.key in tracker && |recent| >= limit then (tracker, false)
    else (Sweep(tracker[r.key := recent + [r.now]], r.now, window), true)
  }

  class Limiter {
    const window: real
    var tracker: map<Key, seq<real>>

    constructor (window: real)
      ensures this.window == window && tracker == map[]
    {
      this.window, tracker := window, map[];
    }

    /** The wrapper around an endpoint. */
    method Admit(r: Request, maxRequests: int) returns (admitted: bool)
      modifies this`tracker
      ensures (tracker, admitted) == Decide(old(tracker), r, maxRequests, window)
    {
      if r.key in tracker {
        var timestamps: seq<real> := [];
        var log := tracker[r.key];
        for k := 0 to |log|
          invariant timestamps + Recent(log[k..], r.now, window) == Recent(log, r.now, window)
        {
          if r.now - log[k] < window {
            timestamps := timestamps + [log[k]];
          }
        }
        assert timestamps + [] == timestamps;
        if |timestamps| >= maxRequests {
          return false;
        }
        tracker := tracker[r.key := timestamps + [r.now]];
      } else {
        assert Recent([], r.now, window) + [r.now] == [r.now];
        tracker := tracker[r.key := [r.now]];
      }
      ghost var unswept := tracker;
      if |tracker| > GC_THRESHOLD {
        tracker := map k | k in tracker && !Expired(tracker[k], r.now, window) :: tracker[k];
      }
      assert tracker == Sweep(unswept, r.now, window);
      admitted := true;
    }
  }

  // ---- Runs ----

  /** The tracker and the decisions after a run of requests. */
  function Run(rs: seq<Request>, limit: Key -> int, window: real): (r: (map<Key, seq<real>>, seq<bool>))
    ensures |r.1| == |rs|
  {
    if rs == [] then (map[], [])
    else
      var (tracker, decisions) := Run(rs[..|rs| - 1], limit, window);
      var last := rs[|rs| - 1];
      var (tracker', admitted) := Decide(tracker, last, limit(last.key), window);
      (tracker', decisions + [admitted])
  }

  ghost predicate Chronological(rs: seq<Request>) { forall i, j :: 0 <= i <= j < |rs| ==> rs[i].now <= rs[j].now }

  /** The times at which requests of `key` were let in. */
  function Accepted(rs: seq<Request>, decisions: seq<bool>, key: Key): seq<real>
    requires |rs| == |decisions|
  {
    if rs == [] then []
    else
      var n := |rs| - 1;
      Accepted(rs[..n], decisions[..n], key) + (if rs[n].key == key && decisions[n] then [rs[n].now] else [])
  }

  /** The limiter as it is meant: it looks at everything ever accepted, and forgets nothing. */
  function Ideal(rs: seq<Request>, limit: Key -> int, window: real): (decisions: seq<bool>)
    ensures |decisions| == |rs|
  {
    if rs == [] then []
    else
      var n := |rs| - 1;
      var before := Ideal(rs[..n], limit, window);
      before + [|Recent(Accepted(rs[..n], before, rs[n].key), rs[n].now, window)| < limit(rs[n].key)]
  }

  lemma {:induction false} RecentAppend(log: seq<real>, t: real, now: real, window: real)
    ensures Recent(log + [t], now, window) == Recent(log, now, window) + (if Young(now, t, window) then [t] else [])
  {
    if log == [] {
      assert (log + [t])[1..] == [];
    } else {
      RecentAppend(log[1..], t, now, window);
      assert (log + [t])[1..] == log[1..] + [t];
    }
  }

  /** Pruning now does not change what will count as recent later. */
  lemma {:induction false} RecentTwice(log: seq<real>, t: real, now: real, window: real)
    requires t <= now
    ensures Recent(Recent(log, t, window), now, window) == Recent(log, now, window)
  {
    if log != [] {
      RecentTwice(log[1..], t, now, window);
      if Young(t, log[0], window) {
        assert Recent(log, t, window)[1..] == Recent(log[1..], t, window);
      } else {
        assert Recent(log, t, window) == Recent(log[1..], t, window);
        assert Recent(log, now, window) == Recent(log[1..], now, window);
      }
    }
  }

  lemma {:induction false} ExpiredStays(log: seq<real>, t: real, now: real, window: real)
    requires t <= now && Expired(log, t, window)
    ensures Recent(log, now, window) == []
  {
    if log != [] {
      ExpiredStays(log[1..], t, now, window);
    }
  }

  lemma SweepKeepsRecent(tracker: map<Key, seq<real>>, t: real, now: real, window: real, key: Key)
    requires t <= now
    ensures Recent(Log(Sweep(tracker, t, window), key), now, window) == Recent(Log(tracker, key), now, window)
  {
    if key in tracker && key !in Sweep(tracker, t, window) {
      ExpiredStays(tracker[key], t, now, window);
    }
  }

  /** Whatever was pruned or swept, the tracker knows the accepted requests that can still matter. */
  lemma {:induction false} TrackerIsFaithful(rs: seq<Request>, limit: Key -> int, window: real, key: Key, now: real)
    requires Chronological(rs) && (rs != [] ==> rs[|rs| - 1].now <= now)
    ensures
      var (tracker, decisions) := Run(rs, limit, window);
      Recent(Log(tracker, key), now, window) == Recent(Accepted(rs, decisions, key), now, window)
  {
    if rs != [] {
      hide Sweep, Recent, Accepted;
      var n := |rs| - 1;
      var last := rs[n];
      var (tracker, decisions) := Run(rs[..n], limit, window);
      TrackerIsFaithful(rs[..n], limit, window, key, now);
      var (tracker', admitted) := Decide(tracker, last, limit(last.key), window);
      AcceptedStep(rs, decisions + [admitted], key);
      assert (decisions + [admitted])[..n] == decisions;
      if admitted {
        var recent := Recent(Log(tracker, last.key), last.now, window);
        SweepKeepsRecent(tracker[last.key := recent + [last.now]], last.now, now, window, key);
        if key == last.key {
          RecentAppend(recent, last.now, now, window);
          RecentTwice(Log(tracker, key), last.now, now, window);
          RecentAppend(Accepted(rs[..n], decisions, key), last.now, now, window);
        }
      }
    }
  }

  lemma AcceptedStep(rs: seq<Request>, decisions: seq<bool>, key: Key)
    requires |rs| == |decisions| > 0
    ensures
      var n := |rs| - 1;
      var before := Accepted(rs[..n], decisions[..n], key);
      Accepted(rs, decisions, key) == if rs[n].key == key && decisions[n] then before + [rs[n].now] else before
  {
  }

  /** Every decision is the ideal one: a request is refused exactly when as many accepted requests of its
      key as the limit allows are younger than the window. Neither pruning nor the sweep ever shows. */
  lemma {:induction false} DecisionsAreIdeal(rs: seq<Request>, limit: Key -> int, window: real)
    requires Chronological(rs) && forall k :: 0 <= k < |rs| ==> limit(rs[k].key) >= 1
    ensures Run(rs, limit, window).1 == Ideal(rs, limit, window)
  {
    if rs != [] {
      var n := |rs| - 1;
      DecisionsAreIdeal(rs[..n], limit, window);
      TrackerIsFaithful(rs[..n], limit, window, rs[n].key, rs[n].now);
    }
  }

  lemma {:induction false} TrackedKeys(rs: seq<Request>, limit: Key -> int, window: real)
    ensures forall key :: key in Run(rs, limit, window).0 ==> exists i :: 0 <= i < |rs| && rs[i].key == key
  {
    if rs != [] {
      hide Recent, Expired;
      var n := |rs| - 1;
      TrackedKeys(rs[..n], limit, window);
      assert rs[n].key == rs[n].key;
    }
  }

  lemma {:induction false} LimitlessDiffers(rs: seq<Request>, limit: Key -> int, window: real, k: nat)
    requires k < |rs| && limit(rs[k].key) <= 0
    ensures Run(rs, limit, window).1 != Ideal(rs, limit, window)
    decreases |rs|
  {
    hide Sweep, Recent, Accepted;
    var n := |rs| - 1;
    if j :| 0 <= j < n && limit(rs[j].key) <= 0 {
      LimitlessDiffers(rs[..n], limit, window, j);
      assert Run(rs, limit, window).1[..n] == Run(rs[..n], limit, window).1;
      assert Ideal(rs, limit, window)[..n] == Ideal(rs[..n], limit, window);
    } else {
      assert k == n;
      TrackedKeys(rs[..n], limit, window);
      assert rs[n].key !in Run(rs[..n], limit, window).0;
      assert Run(rs, limit, window).1[n] && !Ideal(rs, limit, window)[n];
    }
  }

  /** The decisions of a chronological run are the ideal ones exactly when no request has a limit below one. */
  lemma IdealIff(rs: seq<Request>, limit: Key -> int, window: real)
    requires Chronological(rs)
    ensures Run(rs, limit, window).1 == Ideal(rs, limit, window) <==> forall k :: 0 <= k < |rs| ==> limit(rs[k].key) >= 1
  {
    hide Run, Ideal;
    if forall k :: 0 <= k < |rs| ==> limit(rs[k].key) >= 1 {
      DecisionsAreIdeal(rs, limit, window);
    } else {
      var k :| 0 <= k < |rs| && limit(rs[k].key) < 1;
      LimitlessDiffers(rs, limit, window, k);
    }
  }

  /** With a limit of zero the first request of a key is let in all the same. No call site has such a limit. */
  lemma ZeroLimitAdmitsFirst(key: Key, now: real, limit: Key -> int, window: real)
    requires limit(key) <= 0
    ensures Run([Request(key, now)], limit, window).1 == [true]
    ensures Ideal([Request(key, now)], limit, window) == [false]
  {
    var rs := [Request(key, now)];
    assert rs[..0] == [];
    assert Run(rs[..0], limit, window) == (map[], []);
    assert Accepted(rs[..0], [], key) == [];
  }

  lemma {:induction false} AcceptedSorted(rs: seq<Request>, decisions: seq<bool>, key: Key)
    requires |rs| == |decisions| && Chronological(rs)
    ensures
      var a := Accepted(rs, decisions, key);
      && (forall i, j :: 0 <= i <= j < |a| ==> a[i] <= a[j])
      && (rs != [] ==> forall i :: 0 <= i < |a| ==> a[i] <= rs[|rs| - 1].now)
  {
    if |rs| > 0 {
      hide Accepted;
      var n := |rs| - 1;
      AcceptedSorted(rs[..n], decisions[..n], key);
      AcceptedStep(rs, decisions, key);
      var b := Accepted(rs[..n], decisions[..n], key);
      if n == 0 {
        assert rs[..n] == [] && decisions[..n] == [];
        NothingAccepted(key);
      } else {
        assert rs[..n][n - 1] == rs[n - 1] && rs[n - 1].now <= rs[n].now;
      }
      assert forall i :: 0 <= i < |b| ==> b[i] <= rs[n].now;
    } else {
      NothingAccepted(key);
    }
  }

  lemma {:induction false} RecentOfYoung(log: seq<real>, now: real, window: real, i: nat)
    requires i < |log| && Young(now, log[i], window) && forall a, b :: 0 <= a <= b < |log| ==> log[a] <= log[b]
    ensures |Recent(log, now, window)| >= |log| - i
  {
    if i > 0 {
      RecentOfYoung(log[1..], now, window, i - 1);
    } else if |log| > 1 {
      RecentOfYoung(log[1..], now, window, 0);
    }
  }

  /** In any window of `window_seconds`, [x, x + window), at most `limit(key)` requests of a key are let in:
      accepted requests number i to j inside it are at most that many. */
  lemma {:induction false} AtMostLimitPerWindow(rs: seq<Request>, limit: Key -> int, window: real, key: Key,
                                                i: nat, j: nat, x: real)
    requires Chronological(rs) && (forall k :: 0 <= k < |rs| ==> limit(rs[k].key) >= 1) && limit(key) >= 1
    requires i <= j < |Accepted(rs, Run(rs, limit, window).1, key)|
    requires
      var a := Accepted(rs, Run(rs, limit, window).1, key);
      x <= a[i] && a[j] < x + window
    ensures j - i + 1 <= limit(key)
  {
    hide Decide, Recent, Accepted, Ideal;
    NothingAccepted(key);
    var n, decisions := |rs| - 1, Run(rs, limit, window).1;
    var before := Run(rs[..n], limit, window).1;
    assert decisions[..n] == before;
    AcceptedStep(rs, decisions, key);
    var b := Accepted(rs[..n], before, key);
    if j < |b| {
      AtMostLimitPerWindow(rs[..n], limit, window, key, i, j, x);
    } else if i < |b| {
      AcceptedSorted(rs[..n], before, key);
      RecentOfYoung(b, rs[n].now, window, i);
      LastDecision(rs, limit, window);
    }
  }

  lemma NothingAccepted(key: Key)
    ensures Accepted([], [], key) == []
  {
  }

  lemma LastDecision(rs: seq<Request>, limit: Key -> int, window: real)
    requires rs != [] && Chronological(rs) && forall k :: 0 <= k < |rs| ==> limit(rs[k].key) >= 1
    ensures
      var n := |rs| - 1;
      Run(rs, limit, window).1[n] <==>
      |Recent(Accepted(rs[..n], Run(rs[..n], limit, window).1, rs[n].key), rs[n].now, window)| < limit(rs[n].key)
  {
    hide Decide, Recent, Accepted;
    DecisionsAreIdeal(rs, limit, window);
    DecisionsAreIdeal(rs[..|rs| - 1], limit, window);
  }

  // ---- Counting the accepted requests ----

  /** The positions in a log of the times later than `now - window`. */
  function Inside(log: seq<real>, now: real, window: real): set<int> { set i | 0 <= i < |log| && log[i] > now - window }

  lemma {:induction false} RecentSize(log: seq<real>, now: real, window: real)
    ensures |Recent(log, now, window)| == |Inside(log, now, window)|
  {
    if log != [] {
      var n := |log| - 1;
      RecentSize(log[..n], now, window);
      assert log == log[..n] + [log[n]];
      RecentAppend(log[..n], log[n], now, window);
      var own := if log[n] > now - window then {n} else {};
      assert Inside(log, now, window) == Inside(log[..n], now, window) + own;
    }
  }

  /** A request is refused exactly when its limit, or more, of the accepted requests of its key came less than the
      window before it. */
  lemma RefusedIff(rs: seq<Request>, limit: Key -> int, window: real)
    requires rs != [] && Chronological(rs) && forall k :: 0 <= k < |rs| ==> limit(rs[k].key) >= 1
    ensures
      var n := |rs| - 1;
      var accepted := Accepted(rs[..n], Run(rs[..n], limit, window).1, rs[n].key);
      !Run(rs, limit, window).1[n] <==> |Inside(accepted, rs[n].now, window)| >= limit(rs[n].key)
  {
    hide Run, Recent, Accepted, Inside;
    var n := |rs| - 1;
    LastDecision(rs, limit, window);
    RecentSize(Accepted(rs[..n], Run(rs[..n], limit, window).1, rs[n].key), rs[n].now, window);
  }

  /** After an accepted request the tracker has no more than 512 keys, or each of them has been used within the
      window. */
  lemma TrackerIsSmall(rs: seq<Request>, limit: Key -> int, window: real)
    requires rs != [] && window > 0.0 && Run(rs, limit, window).1[|rs| - 1]
    ensures
      var (tracker, now) := (Run(rs, limit, window).0, rs[|rs| - 1].now);
      |tracker| <= 512 || forall key :: key in tracker ==> Inside(tracker[key], now, window) != {}
  {
    hide Recent;
    var n := |rs| - 1;
    var before := Run(rs[..n], limit, window).0;
    var recent := Recent(Log(before, rs[n].key), rs[n].now, window);
    var unswept, tracker := before[rs[n].key := recent + [rs[n].now]], Run(rs, limit, window).0;
    assert tracker == Sweep(unswept, rs[n].now, window);
    if |tracker| > 512 {
      forall key | key in tracker ensures Inside(tracker[key], rs[n].now, window) != {} {
        if |unswept| > 512 {
          var i :| 0 <= i < |tracker[key]| && Young(rs[n].now, tracker[key][i], window);
          assert i in Inside(tracker[key], rs[n].now, window);
        }
      }
    }
  }
}

/** Runs of the scheduler of core/scheduler.py, in which any pass may raise at any point: what is started, and
    when an occurrence is started twice. */
module ScheduleRuns {
  import opened Wrappers
  import opened Schedule

  datatype Input = Input(plan: Plan, now: int, left: nat)

  /** The passes of a run, one after another. */
  function Passes(c: Clock, inputs: seq<Input>): (ps: seq<Pass>)
    ensures |ps| == |inputs|
    decreases inputs
  {
    if inputs == [] then [] else
    var p := PassOf(c, inputs[0].plan, inputs[0].now, inputs[0].left);
    [p] + Passes(p.clock, inputs[1..])
  }

  /** The two schedules that a pass serves. */
  datatype Part = Collect | Facility

  function StartedIn(p: Pass, part: Part): seq<Due> { if part.Collect? then p.fired else p.facilityFired }

  function SlotOf(c: Clock, part: Part): Option<int> { if part.Collect? then c.slot else c.facilitySlot }

  function TimesOf(plan: Plan, part: Part): Option<seq<string>> {
    if part.Collect? then plan.collect else FacilityTimes(plan)
  }

  function Started(ps: seq<Pass>, part: Part): seq<Due> {
    if ps == [] then [] else StartedIn(ps[0], part) + Started(ps[1..], part)
  }

  function Instants(last: int, inputs: seq<Input>): seq<int>
    decreases inputs
  {
    [last] + (if inputs == [] then [] else Instants(inputs[0].now, inputs[1..]))
  }

  ghost predicate DistinctTimes(times: seq<string>) {
    forall i, j :: 0 <= i < j < |times| && SlotMinute(times[i]).Some? ==> SlotMinute(times[i]) != SlotMinute(times[j])
  }

  ghost predicate DistinctInstants(due: seq<Due>) {
    forall i, j :: 0 <= i < j < |due| ==> due[i].at != due[j].at
  }

  lemma {:induction false} DueFrom(times: seq<string>, last: int, now: int)
    requires 0 < now - last <= LIMIT
    ensures forall d :: d in WindowDue(times, last, now) ==> d.text in times && last < d.at <= now && OccursAt(d.text, d.at)
  {
    if times != [] {
      hide Candidate, OccursAt;
      var n := |times| - 1;
      DueFrom(times[..n], last, now);
      var c := Candidate(times[n], last, now);
      if c.Some? { CandidateIff(times[n], last, now, c.value); }
    }
  }

  lemma {:induction false} DueDistinct(times: seq<string>, last: int, now: int)
    requires 0 < now - last <= LIMIT && DistinctTimes(times)
    ensures DistinctInstants(WindowDue(times, last, now))
  {
    if times != [] {
      hide Candidate, SlotMinute;
      var n := |times| - 1;
      DueDistinct(times[..n], last, now);
      DueFrom(times[..n], last, now);
      var front, c := WindowDue(times[..n], last, now), Candidate(times[n], last, now);
      if c.Some? {
        CandidateIff(times[n], last, now, c.value);
        forall i | 0 <= i < |front| ensures front[i].at != c.value {
          assert front[i] in front;
          var j :| 0 <= j < n && times[j] == front[i].text;
          assert SlotMinute(times[j]) != SlotMinute(times[n]);
        }
      }
    }
  }

  lemma {:induction false} AllFired(due: seq<Due>, slot: Option<int>, left: nat)
    requires DistinctInstants(due) && FireAll(due, slot, left).ok
    requires forall d :: d in due ==> Some(d.at) != slot
    ensures FireAll(due, slot, left).fired == due
    ensures FireAll(due, slot, left).slot == if due == [] then slot else Some(due[|due| - 1].at)
  {
    if due != [] {
      forall d | d in due[1..] ensures Some(d.at) != Some(due[0].at) {
        var j :| 0 <= j < |due| - 1 && due[1..][j] == d;
        assert due[j + 1] == d;
      }
      AllFired(due[1..], Some(due[0].at), left - 1);
    }
  }

  /** Passes that raise nothing start exactly what is due, each slot once, in order, whatever the facility
      schedule does beside it. */
  lemma {:induction false} RunFiresDue(c: Clock, inputs: seq<Input>, times: seq<string>)
    requires DistinctTimes(times) && Steady(Instants(c.last, inputs)) && (c.slot.None? || c.slot.value <= c.last)
    requires forall k :: 0 <= k < |inputs| ==> inputs[k].plan.collect == Some(times) && Passes(c, inputs)[k].ok
    ensures Started(Passes(c, inputs), Collect) == AllDue(times, Instants(c.last, inputs))
    decreases inputs
  {
    if inputs != [] {
      hide SlotMinute, PassOf, DueAt, DistinctTimes;
      var i, rest, ps, checks := inputs[0], inputs[1..], Passes(c, inputs), Instants(c.last, inputs);
      assert ps[0].ok;
      assert checks[1] - checks[0] == i.now - c.last;
      PassFiresDue(c, i, times);
      var next := ps[0].clock;
      assert ps[1..] == Passes(next, rest);
      assert checks[1..] == Instants(i.now, rest);
      SteadyTail(checks);
      forall k | 0 <= k < |rest| ensures rest[k].plan.collect == Some(times) && Passes(next, rest)[k].ok {
        assert rest[k] == inputs[k + 1] && Passes(next, rest)[k] == ps[k + 1];
      }
      RunFiresDue(next, rest, times);
    }
  }

  lemma PassFiresDue(c: Clock, i: Input, times: seq<string>)
    requires DistinctTimes(times) && 0 < i.now - c.last <= LIMIT && (c.slot.None? || c.slot.value <= c.last)
    requires i.plan.collect == Some(times) && PassOf(c, i.plan, i.now, i.left).ok
    ensures var p := PassOf(c, i.plan, i.now, i.left);
      p.fired == DueAt(times, c.last, i.now) && p.clock.last == i.now && (p.clock.slot.None? || p.clock.slot.value <= i.now)
  {
    hide SlotMinute, OccursAt, FireAll, WindowDue, DistinctTimes, DistinctInstants;
    DueFrom(times, c.last, i.now);
    DueDistinct(times, c.last, i.now);
    var due := DueAt(times, c.last, i.now);
    AllFired(due, c.slot, i.left - 1);
    if due != [] { assert due[|due| - 1] in due; }
  }

  // ---- What a list of due slots starts ----

  lemma {:induction false} LastRemembered(due: seq<Due>, slot: Option<int>, left: nat)
    requires due != [] && FireAll(due, slot, left).ok
    ensures FireAll(due, slot, left).slot == Some(due[|due| - 1].at)
  {
    if |due| > 1 {
      if Some(due[0].at) == slot {
        LastRemembered(due[1..], slot, left);
      } else {
        LastRemembered(due[1..], Some(due[0].at), left - 1);
      }
    }
  }

  /** Starting the slots one by one, an entry is skipped exactly when the entry before it (or, for the first,
      the slot remembered) has the same instant. */
  lemma {:induction false} StartedIff(due: seq<Due>, slot: Option<int>, left: nat, x: int)
    requires FireAll(due, slot, left).ok
    ensures StartsAt(FireAll(due, slot, left).fired, x) <==> exists k :: Changes(due, slot, k, x)
  {
    if due != [] {
      var rest, next := due[1..], Some(due[0].at);
      var more := if next == slot then left else left - 1;
      StartedIff(rest, next, more, x);
      var now, behind := FireAll(due, slot, left).fired, FireAll(rest, next, more).fired;
      assert forall k :: 0 < k < |due| ==> due[k] == rest[k - 1];
      assert forall k :: 0 < k < |due| ==> (Changes(due, slot, k, x) <==> Changes(rest, next, k - 1, x));
      if next != slot {
        assert now[0] == due[0] && forall d :: d in now <==> d == due[0] || d in behind;
        if due[0].at == x { assert due[0] in now && Changes(due, slot, 0, x); }
      }
      if k :| Changes(due, slot, k, x) && k > 0 { assert Changes(rest, next, k - 1, x); }
      if k :| Changes(rest, next, k, x) { assert Changes(due, slot, k + 1, x); }
    }
  }

  ghost predicate StartsAt(fired: seq<Due>, x: int) { exists d :: d in fired && d.at == x }

  predicate Changes(due: seq<Due>, slot: Option<int>, k: int, x: int) {
    0 <= k < |due| && due[k].at == x && (if k == 0 then slot != Some(x) else due[k - 1].at != x)
  }

  /** In the listing order, an entry of another instant stands before an entry of `x`. */
  ghost predicate Overtaken(due: seq<Due>, x: int) {
    exists j, k :: 0 <= j < k < |due| && due[j].at != x && due[k].at == x
  }

  lemma {:induction false} OvertakenChanges(due: seq<Due>, x: int)
    ensures Overtaken(due, x) <==> exists k :: k > 0 && Changes(due, Some(x), k, x)
    ensures forall k :: Changes(due, Some(x), k, x) ==> k > 0
  {
    if j, k :| 0 <= j < k < |due| && due[j].at != x && due[k].at == x {
      var m := Boundary(due, x, j, k);
      assert Changes(due, Some(x), m, x);
    }
    if k :| k > 0 && Changes(due, Some(x), k, x) {
      assert due[k - 1].at != x;
    }
  }

  lemma {:induction false} Boundary(due: seq<Due>, x: int, j: nat, k: nat) returns (m: nat)
    requires j < k < |due| && due[j].at != x && due[k].at == x
    ensures j < m <= k && due[m - 1].at != x && due[m].at == x
  {
    m := k;
    while due[m - 1].at == x
      invariant j < m <= k && due[m].at == x
      decreases m
    {
      m := m - 1;
    }
  }

  lemma {:induction false} FirstEntry(due: seq<Due>, x: int) returns (k: nat)
    requires exists d :: d in due && d.at == x
    ensures k < |due| && due[k].at == x && forall j :: 0 <= j < k ==> due[j].at != x
  {
    k := 0;
    while due[k].at != x
      invariant k < |due| && forall j :: 0 <= j < k ==> due[j].at != x
      invariant exists d :: d in due[k..] && d.at == x
      decreases |due| - k
    {
      assert due[k..] == [due[k]] + due[k + 1..];
      k := k + 1;
    }
  }

  /** A pass over the window from `last` to `now` starts its slots and then raises; the next pass sees the window
      from `last` to a later instant. A slot `x` of the first is started again exactly when it was not the last
      one remembered, or the longer list has an entry of another instant before one of its entries. */
  lemma RestartedIff(times: seq<string>, last: int, now: int, later: int, slot: Option<int>, left: nat, again: nat, x: int)
    requires 0 < now - last <= later - last <= LIMIT
    requires FireAll(DueAt(times, last, now), slot, left).ok
    requires FireAll(DueAt(times, last, later), FireAll(DueAt(times, last, now), slot, left).slot, again).ok
    requires StartsOrSkips(DueAt(times, last, now), x)
    ensures
      var due, more := DueAt(times, last, now), DueAt(times, last, later);
      StartsAt(FireAll(more, FireAll(due, slot, left).slot, again).fired, x) <==>
      x != due[|due| - 1].at || Overtaken(more, x)
  {
    hide WindowDue, FireAll;
    var due, more := DueAt(times, last, now), DueAt(times, last, later);
    LastRemembered(due, slot, left);
    var kept := Some(due[|due| - 1].at);
    StartedIff(more, kept, again, x);
    StillDue(times, last, now, later, x);
    if kept == Some(x) {
      OvertakenChanges(more, x);
    } else {
      var k := FirstEntry(more, x);
      assert Changes(more, kept, k, x);
    }
  }

  ghost predicate StartsOrSkips(due: seq<Due>, x: int) { exists d :: d in due && d.at == x }

  lemma StillDue(times: seq<string>, last: int, now: int, later: int, x: int)
    requires 0 < now - last <= later - last <= LIMIT && StartsOrSkips(DueAt(times, last, now), x)
    ensures StartsOrSkips(DueAt(times, last, later), x)
  {
    hide WindowDue, OccursAt;
    var d :| d in DueAt(times, last, now) && d.at == x;
    DueFrom(times, last, now);
    DueHas(times, last, later, d.text, x);
  }

  lemma DueHas(times: seq<string>, last: int, now: int, t: string, at: int)
    requires 0 < now - last <= LIMIT && t in times && OccursAt(t, at) && last < at <= now
    ensures Due(t, at) in DueAt(times, last, now)
  {
    hide WindowDue, OccursAt;
    WindowCount(times, last, now, t, at);
    assert t in multiset(times);
    assert Due(t, at) in multiset(DueAt(times, last, now));
  }

  /** So such a retry starts no slot twice exactly when the first window held one instant only, and the longer
      list keeps every other instant behind it. */
  lemma RetryIsQuietIff(times: seq<string>, last: int, now: int, later: int, slot: Option<int>, left: nat, again: nat)
    requires 0 < now - last <= later - last <= LIMIT && DueAt(times, last, now) != []
    requires FireAll(DueAt(times, last, now), slot, left).ok
    requires FireAll(DueAt(times, last, later), FireAll(DueAt(times, last, now), slot, left).slot, again).ok
    ensures
      var due, more := DueAt(times, last, now), DueAt(times, last, later);
      (forall x :: StartsOrSkips(due, x) ==> !StartsAt(FireAll(more, FireAll(due, slot, left).slot, again).fired, x)) <==>
      (forall d :: d in due ==> d.at == due[0].at) && !Overtaken(more, due[0].at)
  {
    hide DueAt, FireAll, Overtaken, StartsAt;
    var due := DueAt(times, last, now);
    var x, y := due[0].at, due[|due| - 1].at;
    assert due[0] in due && due[|due| - 1] in due;
    forall z | StartsOrSkips(due, z)
      ensures StartsAt(FireAll(DueAt(times, last, later), FireAll(due, slot, left).slot, again).fired, z) <==>
        z != y || Overtaken(DueAt(times, last, later), z)
    {
      RestartedIff(times, last, now, later, slot, left, again, z);
    }
    assert StartsOrSkips(due, x);
    if d :| d in due && d.at != x {
      assert StartsOrSkips(due, d.at);
    }
  }

  // ---- Over whole runs ----

  ghost predicate Increasing(due: seq<Due>) { forall i, j :: 0 <= i < j < |due| ==> due[i].at < due[j].at }

  /** The schedule's times are the same throughout, and the clock does not run back. */
  ghost predicate Daily(times: seq<string>, part: Part, last: int, inputs: seq<Input>) {
    forall k :: 0 <= k < |inputs| ==>
      TimesOf(inputs[k].plan, part) == Some(times) && last <= inputs[k].now && (k > 0 ==> inputs[k - 1].now <= inputs[k].now)
  }

  /** Any two different times of the day are at least five minutes apart, around midnight too. */
  ghost predicate Spaced(times: seq<string>) {
    forall s, t :: s in times && t in times ==> Apart(SlotMinute(s), SlotMinute(t))
  }

  predicate Apart(m: Option<nat>, n: Option<nat>) {
    m.None? || n.None? || m == n || 5 <= m.value - n.value <= 1435 || 5 <= n.value - m.value <= 1435
  }

  ghost predicate Occurs(times: seq<string>, at: int) { exists t :: t in times && OccursAt(t, at) }

  lemma OccurrencesApart(times: seq<string>, a: int, b: int)
    requires Spaced(times) && Occurs(times, a) && Occurs(times, b) && a < b
    ensures b - a >= LIMIT
  {
    hide SlotMinute;
    var s :| s in times && OccursAt(s, a);
    var t :| t in times && OccursAt(t, b);
    assert Apart(SlotMinute(s), SlotMinute(t));
    assert a == (a / DAY) * DAY + a % DAY && b == (b / DAY) * DAY + b % DAY;
    SplitDays(a / DAY, b / DAY, SlotMinute(s).value, SlotMinute(t).value);
  }

  lemma SplitDays(d: int, e: int, m: nat, n: nat)
    requires m < 1440 && n < 1440 && Apart(Some(m), Some(n)) && d * DAY + m * MINUTE < e * DAY + n * MINUTE
    ensures e * DAY + n * MINUTE - (d * DAY + m * MINUTE) >= LIMIT
  {
  }

  /** What is remembered is an occurrence, and not far ahead of the last check. */
  ghost predicate Sane(times: seq<string>, last: int, slot: Option<int>) {
    slot.Some? ==> slot.value <= last + LIMIT && Occurs(times, slot.value)
  }

  ghost predicate Moves(times: seq<string>, last: int, slot: Option<int>, fired: seq<Due>, slot': Option<int>) {
    && |fired| <= 1
    && (fired != [] ==> slot' == Some(fired[0].at) && slot' != slot)
    && Sane(times, last, slot')
    && (slot' != slot ==> slot'.Some? && (slot.Some? ==> slot.value < slot'.value))
  }

  lemma {:induction false} SameInstant(due: seq<Due>, x: int, slot: Option<int>, left: nat)
    requires forall d :: d in due ==> d.at == x
    ensures var f := FireAll(due, slot, left);
      && |f.fired| <= 1 && (f.fired != [] ==> f.fired[0].at == x && slot != Some(x))
      && (due == [] ==> f.fired == []) && f.slot == (if due == [] then slot else Some(x))
      && (slot == Some(x) ==> f.fired == [])
  {
    if due != [] {
      if Some(x) == slot {
        SameInstant(due[1..], x, slot, left);
      } else if left > 0 {
        SameInstant(due[1..], x, Some(x), left - 1);
      }
    }
  }

  lemma AllAt(times: seq<string>, last: int, now: int, x: int)
    requires Spaced(times) && Occurs(times, x) && last < x <= now <= last + LIMIT
    ensures forall d :: d in DueAt(times, last, now) ==> d.at == x
  {
    hide WindowDue, OccursAt, Spaced;
    DueFrom(times, last, now);
    forall d | d in DueAt(times, last, now) ensures d.at == x {
      assert Occurs(times, d.at);
      if d.at < x { OccurrencesApart(times, d.at, x); }
      if x < d.at { OccurrencesApart(times, x, d.at); }
    }
  }

  /** Spaced times put one instant at most into a window; it is started at most once, and never an earlier one
      than before. */
  lemma OneInstant(times: seq<string>, last: int, now: int, slot: Option<int>, left: nat)
    requires last <= now && Spaced(times) && Sane(times, last, slot)
    ensures var f := FireAll(DueAt(times, last, now), slot, left); Moves(times, last, slot, f.fired, f.slot)
  {
    hide SlotMinute, OccursAt, FireAll, WindowDue, Spaced;
    var due := DueAt(times, last, now);
    if due != [] {
      var x := due[0].at;
      assert due[0] in due;
      DueFrom(times, last, now);
      AllAt(times, last, now, x);
      SameInstant(due, x, slot, left);
      if slot.Some? && x < slot.value { OccurrencesApart(times, x, slot.value); }
    } else {
      SameInstant(due, 0, slot, left);
    }
  }

  /** How many operations would still succeed when a pass comes to the slots of a schedule; None if it raises
      before. */
  function PartLeft(c: Clock, i: Input, part: Part): Option<nat> {
    if i.left == 0 then None
    else if part.Collect? then Some(i.left - 1)
    else
      var a := FirePart(i.plan.collect, c.last, i.now, c.slot, i.left - 1);
      if a.ok && a.left > 0 then Some(a.left - 1) else None
  }

  /** A pass either does not come to a schedule, or works on its due slots. */
  lemma PassPart(c: Clock, i: Input, part: Part, times: seq<string>)
    requires TimesOf(i.plan, part) == Some(times)
    ensures
      var p, left := PassOf(c, i.plan, i.now, i.left), PartLeft(c, i, part);
      && (p.clock.last == c.last || p.clock.last == i.now)
      && (left.None? ==> StartedIn(p, part) == [] && SlotOf(p.clock, part) == SlotOf(c, part))
      && (left.Some? ==>
            var f := FireAll(DueAt(times, c.last, i.now), SlotOf(c, part), left.value);
            StartedIn(p, part) == f.fired && SlotOf(p.clock, part) == f.slot)
  {
    hide FireAll, DueAt;
  }

  lemma PassMoves(c: Clock, i: Input, part: Part, times: seq<string>)
    requires TimesOf(i.plan, part) == Some(times) && c.last <= i.now && Spaced(times) && Sane(times, c.last, SlotOf(c, part))
    ensures
      var p := PassOf(c, i.plan, i.now, i.left);
      && (p.clock.last == c.last || p.clock.last == i.now)
      && Moves(times, p.clock.last, SlotOf(c, part), StartedIn(p, part), SlotOf(p.clock, part))
  {
    hide PassOf, PartLeft, FireAll, DueAt, Spaced, Occurs;
    PassPart(c, i, part, times);
    var left := PartLeft(c, i, part);
    if left.Some? { OneInstant(times, c.last, i.now, SlotOf(c, part), left.value); }
  }

  /** Spaced times are started at most once for each occurrence, in the order of time, however the passes
      fail. */
  lemma {:induction false} SpacedAtMostOnce(c: Clock, inputs: seq<Input>, part: Part, times: seq<string>)
    requires Spaced(times) && Daily(times, part, c.last, inputs) && Sane(times, c.last, SlotOf(c, part))
    ensures Increasing(Started(Passes(c, inputs), part))
    ensures Beyond(SlotOf(c, part), Started(Passes(c, inputs), part))
    decreases inputs
  {
    if inputs != [] {
      hide PassOf, Increasing, Daily, Spaced, Occurs, Beyond;
      var i, rest := inputs[0], inputs[1..];
      var p := PassOf(c, i.plan, i.now, i.left);
      DailyTail(times, part, c.last, inputs);
      PassMoves(c, i, part, times);
      SpacedAtMostOnce(p.clock, rest, part, times);
      assert ([p] + Passes(p.clock, rest))[1..] == Passes(p.clock, rest);
      Joined(times, p.clock.last, SlotOf(c, part), StartedIn(p, part), SlotOf(p.clock, part),
             Started(Passes(p.clock, rest), part));
    }
  }

  lemma DailyTail(times: seq<string>, part: Part, last: int, inputs: seq<Input>)
    requires Daily(times, part, last, inputs) && inputs != []
    ensures TimesOf(inputs[0].plan, part) == Some(times) && last <= inputs[0].now
    ensures Daily(times, part, last, inputs[1..]) && Daily(times, part, inputs[0].now, inputs[1..])
  {
    var rest := inputs[1..];
    assert forall k :: 0 <= k < |rest| ==> rest[k] == inputs[k + 1];
    NowsGrow(inputs);
  }

  lemma {:induction false} NowsGrow(inputs: seq<Input>)
    requires forall k :: 0 < k < |inputs| ==> inputs[k - 1].now <= inputs[k].now
    ensures forall k :: 0 <= k < |inputs| ==> inputs[0].now <= inputs[k].now
  {
    if |inputs| > 1 {
      var n := |inputs| - 1;
      NowsGrow(inputs[..n]);
      assert inputs[..n][n - 1] == inputs[n - 1] && inputs[..n][0] == inputs[0];
      assert forall k :: 0 <= k < n ==> inputs[..n][k] == inputs[k];
    }
  }

  ghost predicate Beyond(slot: Option<int>, due: seq<Due>) { slot.Some? ==> forall d :: d in due ==> slot.value < d.at }

  lemma Joined(times: seq<string>, last: int, slot: Option<int>, few: seq<Due>, slot': Option<int>, more: seq<Due>)
    requires Moves(times, last, slot, few, slot') && Increasing(more) && Beyond(slot', more)
    ensures Increasing(few + more) && Beyond(slot, few + more)
  {
    if few == [] {
      assert few + more == more;
    } else {
      forall i, j | 0 <= i < j < |few + more| ensures (few + more)[i].at < (few + more)[j].at {
        assert (few + more)[j] == more[j - 1] && more[j - 1] in more;
      }
    }
  }

  /** The facility schedule has one daily time. However its passes fail, it never starts the same occurrence
      twice. */
  lemma FacilityAtMostOnce(c: Clock, inputs: seq<Input>, t: string)
    requires Daily([t], Facility, c.last, inputs) && Sane([t], c.last, c.facilitySlot)
    ensures Increasing(Started(Passes(c, inputs), Facility))
    ensures Beyond(c.facilitySlot, Started(Passes(c, inputs), Facility))
  {
    hide Increasing, Daily, Sane, Beyond;
    SpacedAtMostOnce(c, inputs, Facility, [t]);
  }

  // ---- Which occurrences are lost ----

  /** The first pass that comes to the schedule with `x` in its window, at most 300 seconds long: whether a start
      would succeed there. None if there is no such pass. */
  function FirstAttempt(c: Clock, inputs: seq<Input>, part: Part, x: int): Option<bool>
    decreases inputs
  {
    if inputs == [] then None else
    var i, left := inputs[0], PartLeft(c, inputs[0], part);
    if left.Some? && c.last < x <= i.now && i.now - c.last <= LIMIT then Some(left.value > 0)
    else FirstAttempt(PassOf(c, i.plan, i.now, i.left).clock, inputs[1..], part, x)
  }

  /** An occurrence in the window is started by the one operation it takes, or remembered for good. */
  lemma Attempted(times: seq<string>, last: int, now: int, slot: Option<int>, left: nat, x: int)
    requires Spaced(times) && Occurs(times, x) && last < x <= now && now - last <= LIMIT && slot != Some(x)
    ensures var f := FireAll(DueAt(times, last, now), slot, left);
      f.slot == Some(x) && (if left > 0 then StartsAt(f.fired, x) else f.fired == [])
  {
    hide SlotMinute, OccursAt, FireAll, WindowDue, Spaced;
    var due := DueAt(times, last, now);
    var t :| t in times && OccursAt(t, x);
    DueHas(times, last, now, t, x);
    AllAt(times, last, now, x);
    SameInstant(due, x, slot, left);
    FirstStarts(due, slot, left);
  }

  lemma FirstStarts(due: seq<Due>, slot: Option<int>, left: nat)
    requires due != [] && Some(due[0].at) != slot
    ensures left > 0 ==> FireAll(due, slot, left).fired != [] && FireAll(due, slot, left).fired[0] == due[0]
    ensures left == 0 ==> FireAll(due, slot, left).fired == []
  {
  }

  lemma NotAttempted(times: seq<string>, last: int, now: int, slot: Option<int>, left: nat, x: int)
    requires last <= now && Spaced(times) && Sane(times, last, slot) && slot != Some(x)
    requires !(last < x <= now && now - last <= LIMIT)
    ensures var f := FireAll(DueAt(times, last, now), slot, left); !StartsAt(f.fired, x) && f.slot != Some(x)
  {
    hide SlotMinute, OccursAt, FireAll, WindowDue, Spaced, Occurs;
    var due := DueAt(times, last, now);
    if due != [] { DueFrom(times, last, now); }
    FiredAreDue(due, slot, left);
  }

  lemma {:induction false} FiredAreDue(due: seq<Due>, slot: Option<int>, left: nat)
    ensures var f := FireAll(due, slot, left);
      (forall d :: d in f.fired ==> d in due) && (f.slot == slot || exists d :: d in due && f.slot == Some(d.at))
  {
    if due != [] {
      assert due[0] in due && forall d :: d in due[1..] ==> d in due;
      if Some(due[0].at) == slot {
        FiredAreDue(due[1..], slot, left);
      } else if left > 0 {
        FiredAreDue(due[1..], Some(due[0].at), left - 1);
      }
    }
  }

  /** An occurrence is started exactly when the first pass that finds it due can start it: it is lost when that
      start raises, since it is remembered by then, and when no pass that comes to the schedule ever has it in a
      window of at most 300 seconds. */
  lemma {:induction false} StartedExactly(c: Clock, inputs: seq<Input>, part: Part, times: seq<string>, x: int)
    requires Spaced(times) && Daily(times, part, c.last, inputs) && Sane(times, c.last, SlotOf(c, part))
    requires Occurs(times, x) && SlotOf(c, part) != Some(x)
    ensures StartsAt(Started(Passes(c, inputs), part), x) <==> FirstAttempt(c, inputs, part, x) == Some(true)
    decreases inputs
  {
    if inputs != [] {
      hide PassOf, FireAll, DueAt, Daily, Spaced, Occurs, Increasing, PartLeft, Sane;
      var i, rest := inputs[0], inputs[1..];
      var p, left := PassOf(c, i.plan, i.now, i.left), PartLeft(c, i, part);
      DailyTail(times, part, c.last, inputs);
      PassMoves(c, i, part, times);
      PassPart(c, i, part, times);
      var few, more := StartedIn(p, part), Started(Passes(p.clock, rest), part);
      assert Started(Passes(c, inputs), part) == few + more by {
        assert ([p] + Passes(p.clock, rest))[1..] == Passes(p.clock, rest);
      }
      StartsInEither(few, more, x);
      if left.Some? && c.last < x <= i.now && i.now - c.last <= LIMIT {
        Attempted(times, c.last, i.now, SlotOf(c, part), left.value, x);
        SpacedAtMostOnce(p.clock, rest, part, times);
      } else {
        if left.Some? { NotAttempted(times, c.last, i.now, SlotOf(c, part), left.value, x); }
        StartedExactly(p.clock, rest, part, times, x);
      }
    }
  }

  /** Only a pass without an exception moves the window on. */
  lemma WindowMoves(c: Clock, i: Input)
    ensures var p := PassOf(c, i.plan, i.now, i.left);
      p.clock.last == if p.ok then i.now else c.last
  {
    hide FirePart;
  }

  /** A pass that raises before it comes to a schedule costs no occurrence: the first pass that comes to it, within
      300 seconds of the last good one, starts what has come by then if a start succeeds. */
  lemma {:induction false} FailuresCostNothing(c: Clock, inputs: seq<Input>, part: Part, x: int)
    requires inputs != [] && c.last < x
    requires var i := inputs[|inputs| - 1]; x <= i.now <= c.last + LIMIT
    requires forall k :: 0 <= k < |inputs| - 1 ==> inputs[k].left == 0
    requires PartLeft(c, inputs[|inputs| - 1], part).Some? && PartLeft(c, inputs[|inputs| - 1], part).value > 0
    ensures FirstAttempt(c, inputs, part, x) == Some(true)
    decreases inputs
  {
    if |inputs| > 1 {
      assert PassOf(c, inputs[0].plan, inputs[0].now, 0) == Pass(c, [], [], false);
      assert forall k :: 0 <= k < |inputs| - 1 ==> inputs[1..][k] == inputs[k + 1];
      FailuresCostNothing(c, inputs[1..], part, x);
    }
  }

  /** A start that raises, at the very moment of a daily time: no later pass starts that occurrence. */
  lemma RaisedStartIsLost(t: string, x: int, later: seq<Input>)
    requires OccursAt(t, x) && Daily([t], Collect, x, later)
    ensures
      var inputs := [Input(Plan(Some([t]), None), x, 1)] + later;
      !StartsAt(Started(Passes(Clock(x - 1, None, None), inputs), Collect), x)
  {
    hide PassOf, OccursAt, Started, Passes, SlotMinute;
    var c, first := Clock(x - 1, None, None), Input(Plan(Some([t]), None), x, 1);
    var inputs := [first] + later;
    assert forall k :: 0 < k < |inputs| ==> inputs[k] == later[k - 1];
    assert t in [t];
    StartedExactly(c, inputs, Collect, [t], x);
    assert PartLeft(c, first, Collect) == Some(0);
  }

  lemma StartsInEither(few: seq<Due>, more: seq<Due>, x: int)
    ensures StartsAt(few + more, x) <==> StartsAt(few, x) || StartsAt(more, x)
  {
    if d :| d in few && d.at == x { assert d in few + more; }
    if d :| d in more && d.at == x { assert d in few + more; }
  }

  // ---- When at most once is guaranteed ----

  /** Under no clock readings and no failures does the collection start an occurrence twice. */
  ghost predicate NeverTwice(times: seq<string>) {
    forall last, inputs :: Daily(times, Collect, last, inputs) ==>
      DistinctInstants(Started(Passes(Clock(last, None, None), inputs), Collect))
  }

  /** With what it started, a list of slots can start them all with nothing to spare. */
  lemma {:induction false} ExactBudget(due: seq<Due>, slot: Option<int>, left: nat)
    requires left >= |due|
    ensures FireAll(due, slot, left).ok && |FireAll(due, slot, left).fired| <= |due|
    ensures var f := FireAll(due, slot, left); FireAll(due, slot, |f.fired|) == Firing(f.fired, f.slot, 0, true)
  {
    if due != [] {
      if Some(due[0].at) == slot {
        ExactBudget(due[1..], slot, left);
      } else {
        ExactBudget(due[1..], Some(due[0].at), left - 1);
      }
    }
  }

  /** Two slots less than five minutes apart: a pass that starts both and then raises, and one that repeats it. */
  lemma CloseSlotsTwice(times: seq<string>, s: string, t: string, a: int, b: int)
    requires s in times && t in times && OccursAt(s, a) && OccursAt(t, b) && a < b && b - a < LIMIT
    ensures !NeverTwice(times)
  {
    hide OccursAt, WindowDue, FireAll, DistinctInstants;
    var last, plan := a - 1, Plan(Some(times), None);
    var due := DueAt(times, last, b);
    DueHas(times, last, b, s, a);
    DueHas(times, last, b, t, b);
    ExactBudget(due, None, |due|);
    var f := FireAll(due, None, |due|);
    LastRemembered(due, None, |due|);
    ExactBudget(due, f.slot, |due|);
    var g := FireAll(due, f.slot, |due|);
    var x := if f.slot == Some(a) then b else a;
    var k := FirstEntry(due, x);
    StartedIff(due, None, |due|, x);
    StartedIff(due, f.slot, |due|, x);
    assert Changes(due, None, k, x) && Changes(due, f.slot, k, x);
    var inputs := [Input(plan, b, |f.fired| + 1), Input(plan, b, |due| + 1)];
    TwoPasses(last, times, b, f, g, due);
    assert Daily(times, Collect, last, inputs);
    SharedInstant(f.fired, g.fired, x);
  }

  lemma SharedInstant(first: seq<Due>, second: seq<Due>, x: int)
    requires StartsAt(first, x) && StartsAt(second, x)
    ensures !DistinctInstants(first + second)
  {
    var d :| d in first && d.at == x;
    var e :| e in second && e.at == x;
    var i :| 0 <= i < |first| && first[i] == d;
    var j :| 0 <= j < |second| && second[j] == e;
    assert (first + second)[i].at == x && (first + second)[|first| + j].at == x;
  }

  lemma TwoPasses(last: int, times: seq<string>, b: int, f: Firing, g: Firing, due: seq<Due>)
    requires due == DueAt(times, last, b)
    requires FireAll(due, None, |f.fired|) == Firing(f.fired, f.slot, 0, true) && g == FireAll(due, f.slot, |due|)
    ensures
      var plan := Plan(Some(times), None);
      Started(Passes(Clock(last, None, None), [Input(plan, b, |f.fired| + 1), Input(plan, b, |due| + 1)]), Collect) ==
      f.fired + g.fired
  {
    hide FireAll, DueAt;
    var plan, c := Plan(Some(times), None), Clock(last, None, None);
    var inputs := [Input(plan, b, |f.fired| + 1), Input(plan, b, |due| + 1)];
    var p := PassOf(c, plan, b, |f.fired| + 1);
    assert p == Pass(c.(slot := f.slot), f.fired, [], false);
    var q := PassOf(p.clock, plan, b, |due| + 1);
    assert q.fired == g.fired;
    assert inputs[1..] == [Input(plan, b, |due| + 1)] && inputs[1..][1..] == [];
    assert Passes(q.clock, []) == [];
    assert Passes(p.clock, inputs[1..]) == [q];
    assert Passes(c, inputs) == [p, q];
    assert [p, q][1..] == [q] && [q][1..] == [];
    assert Started([q], Collect) == g.fired + [];
  }

  /** At most one start for each occurrence, over every run with any failures, is guaranteed exactly when all
      different times of the schedule lie at least five minutes apart. */
  lemma AtMostOnceIff(times: seq<string>)
    ensures NeverTwice(times) <==> Spaced(times)
  {
    hide SlotMinute, Daily, Started, Passes, DistinctInstants;
    if Spaced(times) {
      forall last, inputs | Daily(times, Collect, last, inputs)
        ensures DistinctInstants(Started(Passes(Clock(last, None, None), inputs), Collect))
      {
        SpacedAtMostOnce(Clock(last, None, None), inputs, Collect, times);
        IncreasingDistinct(Started(Passes(Clock(last, None, None), inputs), Collect));
      }
    } else {
      var s, t :| s in times && t in times && !Apart(SlotMinute(s), SlotMinute(t));
      var m, n := SlotMinute(s).value, SlotMinute(t).value;
      OnDay(s, 0);
      OnDay(t, 0);
      OnDay(s, 1);
      OnDay(t, 1);
      if m < n {
        if n - m < 5 {
          CloseSlotsTwice(times, s, t, m * MINUTE, n * MINUTE);
        } else {
          CloseSlotsTwice(times, t, s, n * MINUTE, DAY + m * MINUTE);
        }
      } else if m - n < 5 {
        CloseSlotsTwice(times, t, s, n * MINUTE, m * MINUTE);
      } else {
        CloseSlotsTwice(times, s, t, m * MINUTE, DAY + n * MINUTE);
      }
    }
  }

  lemma IncreasingDistinct(due: seq<Due>)
    requires Increasing(due)
    ensures DistinctInstants(due)
  {
  }

  lemma OnDay(t: string, d: nat)
    requires SlotMinute(t).Some?
    ensures OccursAt(t, d * DAY + SlotMinute(t).value * MINUTE)
  {
    hide SlotMinute;
  }
}

/** The daily scheduler of core/scheduler.py: which slots a check instant makes due, and which of them a pass
    of the loop really starts. Instants are microseconds of local time, counted from some midnight. */
module Schedule {
  import opened Wrappers
  import Decimal
  import Text

  const MINUTE: int := 60_000_000

  const DAY: int := 1440 * MINUTE

  /** `_CATCHUP_LIMIT_SEC` */
  const LIMIT: int := 300_000_000

  /** A slot that has come: the text it was entered as, and the instant. */
  datatype Due = Due(text: string, at: int)

  // ---- Which slots are due ----

  /** The minute of the day an entry names, if it names one. */
  function SlotMinute(t: string): (m: Option<nat>)
    ensures m.Some? ==> m.value < 1440
  {
    var parts := Decimal.Split(t, ':');
    if |parts| < 2 then None else
    var hh :- Decimal.ParseDecimal(Text.Strip(parts[0]));
    var mm :- Decimal.ParseDecimal(Text.Strip(parts[1]));
    if hh < 24 && mm < 60 then Some(60 * hh + mm) else None
  }

  predicate OccursAt(t: string, at: int) {
    var m := SlotMinute(t);
    m.Some? && at % DAY == m.value * MINUTE
  }

  // What the text of an entry means.

  lemma {:induction false} StripLeftBlank(a: string, s: string)
    requires Text.Blank(a) && (s == "" || !Text.IsBlank(s[0]))
    ensures Text.StripLeft(a + s) == s
  {
    hide Text.IsSpace, Text.IsBlank;
    if a == "" {
      assert a + s == s;
      if s != "" { Text.SpaceIsBlank(s[0]); }
    } else {
      Text.SpaceIsBlank(a[0]);
      StripLeftBlank(a[1..], s);
      assert (a + s)[1..] == a[1..] + s;
    }
  }

  lemma {:induction false} StripRightBlank(s: string, b: string)
    requires Text.Blank(b) && (s == "" || !Text.IsBlank(s[|s| - 1]))
    ensures Text.StripRight(s + b) == s
  {
    hide Text.IsSpace, Text.IsBlank;
    if b == "" {
      assert s + b == s;
      if s != "" { Text.SpaceIsBlank(s[|s| - 1]); }
    } else {
      var n := |b| - 1;
      Text.SpaceIsBlank(b[n]);
      StripRightBlank(s, b[..n]);
      assert (s + b)[..|s + b| - 1] == s + b[..n];
    }
  }

  /** A number of one or two digits or more, perhaps with zeros before it and blanks around it. */
  ghost predicate Shows(text: string, n: nat) {
    exists a, zeros, b :: Text.Blank(a) && Text.Blank(b) && Zeros(zeros) && text == a + (zeros + Decimal.ToDecimal(n)) + b
  }

  predicate Zeros(s: string) { forall k :: 0 <= k < |s| ==> s[k] == '0' }

  lemma {:induction false} ZerosBefore(zeros: string, s: string)
    requires Zeros(zeros) && s != "" && Decimal.AllDigits(s)
    ensures Decimal.AllDigits(zeros + s) && Decimal.NumeralValue(zeros + s) == Decimal.NumeralValue(s)
  {
    var t, n := zeros + s, |zeros + s| - 1;
    assert t[n] == s[|s| - 1];
    if |s| > 1 {
      ZerosBefore(zeros, s[..|s| - 1]);
      assert t[..n] == zeros + s[..|s| - 1];
    } else {
      assert t[..n] == zeros && s[..0] == "";
      OnlyZeros(zeros);
    }
  }

  lemma {:induction false} OnlyZeros(zeros: string)
    requires Zeros(zeros)
    ensures Decimal.AllDigits(zeros) && Decimal.NumeralValue(zeros) == 0
  {
    if zeros != "" { OnlyZeros(zeros[..|zeros| - 1]); }
  }

  lemma ShownNumber(text: string, n: nat)
    requires Shows(text, n)
    ensures Decimal.ParseDecimal(Text.Strip(text)) == Some(n)
  {
    hide Decimal.ToDecimal, Text.IsBlank, Text.StripLeft, Text.StripRight;
    var a, zeros, b :| Text.Blank(a) && Text.Blank(b) && Zeros(zeros) && text == a + (zeros + Decimal.ToDecimal(n)) + b;
    var s := zeros + Decimal.ToDecimal(n);
    ZerosBefore(zeros, Decimal.ToDecimal(n));
    Decimal.DecimalRoundTrip(n);
    DigitIsNoBlank(s[0]);
    DigitIsNoBlank(s[|s| - 1]);
    assert text == a + (s + b) && (s + b)[0] == s[0];
    StripLeftBlank(a, s + b);
    StripRightBlank(s, b);
  }

  lemma DigitIsNoBlank(c: char)
    requires Decimal.IsDigit(c)
    ensures !Text.IsBlank(c)
  {
    Text.SpaceIsBlank(c);
  }

  /** Hours and minutes, with anything behind a second colon ignored: the entry names that minute if the day has it. */
  lemma EntryNames(hours: string, minutes: string, rest: string, h: nat, m: nat)
    requires Shows(hours, h) && Shows(minutes, m) && ':' !in hours && ':' !in minutes
    requires rest == "" || rest[0] == ':'
    ensures SlotMinute(hours + [':'] + (minutes + rest)) == if h < 24 && m < 60 then Some(60 * h + m) else None
  {
    hide Shows, Text.Strip, Decimal.ParseDecimal;
    Decimal.SplitAtSeparator(hours, ':', minutes + rest);
    if rest == "" {
      Decimal.SplitAtSeparator(minutes, ':', "");
      assert minutes + rest == minutes;
    } else {
      Decimal.SplitAtSeparator(minutes, ':', rest[1..]);
      assert minutes + rest == minutes + [':'] + rest[1..];
    }
    var parts := Decimal.Split(hours + [':'] + (minutes + rest), ':');
    assert parts[0] == hours && parts[1] == minutes;
    ShownNumber(hours, h);
    ShownNumber(minutes, m);
  }

  /** A text without a colon names nothing. */
  lemma NoColonNoMinute(text: string)
    requires ':' !in text
    ensures SlotMinute(text) == None
  {
    Decimal.SplitAtSeparator(text, ':', "");
  }

  /** Today's occurrence if it lies in `(last, now]`, else yesterday's if that does. */
  function Candidate(t: string, last: int, now: int): Option<int> {
    var m :- SlotMinute(t);
    var base := now - now % DAY + m * MINUTE;
    if last < base <= now then Some(base)
    else if last < base - DAY <= now then Some(base - DAY)
    else None
  }

  function WindowDue(times: seq<string>, last: int, now: int): seq<Due> {
    if times == [] then [] else
    var t := times[|times| - 1];
    var c := Candidate(t, last, now);
    WindowDue(times[..|times| - 1], last, now) + (if c.Some? then [Due(t, c.value)] else [])
  }

  /** What one check yields; nothing when the clock stood still or ran back, or the gap is too long. */
  function DueAt(times: seq<string>, last: int, now: int): seq<Due> {
    if now <= last || now - last > LIMIT then [] else WindowDue(times, last, now)
  }

  method DueSlots(times: seq<string>, lastCheck: Option<int>, now: int) returns (out: seq<Due>)
    ensures out == if lastCheck.Some? then DueAt(times, lastCheck.value, now) else []
  {
    if lastCheck.None? || now <= lastCheck.value {
      return [];
    }
    if now - lastCheck.value > LIMIT {
      return [];
    }
    out := [];
    for k := 0 to |times|
      invariant out == WindowDue(times[..k], lastCheck.value, now)
    {
      hide SlotMinute;
      assert times[..k + 1][..k] == times[..k];
      var m := SlotMinute(times[k]);
      if m.Some? {
        var base := now - now % DAY + m.value * MINUTE;
        if lastCheck.value < base <= now {
          out := out + [Due(times[k], base)];
        } else if lastCheck.value < base - DAY <= now {
          out := out + [Due(times[k], base - DAY)];
        }
      }
    }
    assert times[..|times|] == times;
  }

  /** A window shorter than a day holds at most one occurrence, and the two candidates do not miss it. */
  lemma CandidateIff(t: string, last: int, now: int, at: int)
    requires 0 < now - last <= LIMIT
    ensures Candidate(t, last, now) == Some(at) <==> last < at <= now && OccursAt(t, at)
  {
    hide SlotMinute;
    var m := SlotMinute(t);
    if m.Some? {
      var d, s := now / DAY, m.value * MINUTE;
      assert now == d * DAY + now % DAY && 0 <= s < DAY;
      InDay(d, s);
      InDay(d - 1, s);
      if last < at <= now && at % DAY == s {
        assert at == (at / DAY) * DAY + s;
        assert d - 1 <= at / DAY <= d;
      }
    }
  }

  lemma InDay(d: int, s: int)
    requires 0 <= s < DAY
    ensures (d * DAY + s) % DAY == s
  {
  }

  lemma {:induction false} WindowCount(times: seq<string>, last: int, now: int, t: string, at: int)
    requires 0 < now - last <= LIMIT
    ensures multiset(WindowDue(times, last, now))[Due(t, at)] ==
      if last < at <= now && OccursAt(t, at) then multiset(times)[t] else 0
  {
    if times != [] {
      hide Candidate, OccursAt, WindowDue;
      var n := |times| - 1;
      WindowCount(times[..n], last, now, t, at);
      CandidateIff(times[n], last, now, at);
      CountLast(times, t);
      WindowLast(times, last, now, Due(t, at));
    } else {
      assert WindowDue(times, last, now) == [];
    }
  }

  lemma CountLast(times: seq<string>, t: string)
    requires times != []
    ensures multiset(times)[t] == multiset(times[..|times| - 1])[t] + if times[|times| - 1] == t then 1 else 0
  {
    assert times == times[..|times| - 1] + [times[|times| - 1]];
  }

  lemma WindowLast(times: seq<string>, last: int, now: int, d: Due)
    requires times != []
    ensures
      var n := |times| - 1;
      multiset(WindowDue(times, last, now))[d] == multiset(WindowDue(times[..n], last, now))[d] +
        if times[n] == d.text && Candidate(times[n], last, now) == Some(d.at) then 1 else 0
  {
    hide Candidate;
    var c := Candidate(times[|times| - 1], last, now);
    var own := if c.Some? then [Due(times[|times| - 1], c.value)] else [];
    assert multiset(own)[d] == if own == [d] then 1 else 0;
  }

  /** The slots belong to the entries at these increasing places of the list. */
  ghost predicate ListedAt(ix: seq<nat>, times: seq<string>, due: seq<Due>) {
    && |ix| == |due| && (forall k :: 0 <= k < |ix| ==> ix[k] < |times| && due[k].text == times[ix[k]])
    && forall j, k :: 0 <= j < k < |ix| ==> ix[j] < ix[k]
  }

  lemma ListLast(ix: seq<nat>, times: seq<string>, due: seq<Due>, at: int)
    requires times != [] && ListedAt(ix, times[..|times| - 1], due)
    ensures ListedAt(ix, times, due + []) && ListedAt(ix + [|times| - 1], times, due + [Due(times[|times| - 1], at)])
  {
  }

  /** A check yields its slots in the order in which their entries are listed. */
  lemma {:induction false} ListingOrder(times: seq<string>, last: int, now: int) returns (ix: seq<nat>)
    ensures ListedAt(ix, times, WindowDue(times, last, now))
  {
    ix := [];
    if times != [] {
      hide Candidate, ListedAt;
      var n := |times| - 1;
      var c := Candidate(times[n], last, now);
      ix := ListingOrder(times[..n], last, now);
      ListLast(ix, times, WindowDue(times[..n], last, now), if c.Some? then c.value else 0);
      if c.Some? { ix := ix + [n]; }
    }
  }

  /** Everything the checks at these instants yield, in order. */
  function AllDue(times: seq<string>, checks: seq<int>): seq<Due> {
    if |checks| <= 1 then [] else DueAt(times, checks[0], checks[1]) + AllDue(times, checks[1..])
  }

  ghost predicate Steady(checks: seq<int>) { forall i :: 0 < i < |checks| ==> 0 < checks[i] - checks[i - 1] <= LIMIT }

  lemma SteadyTail(checks: seq<int>)
    requires Steady(checks) && |checks| > 0
    ensures Steady(checks[1..])
  {
    forall i | 0 < i < |checks| - 1 ensures 0 < checks[1..][i] - checks[1..][i - 1] <= LIMIT {
      assert checks[1..][i] == checks[i + 1] && checks[1..][i - 1] == checks[i];
    }
  }

  lemma {:induction false} SteadyGrows(checks: seq<int>)
    requires Steady(checks) && |checks| > 0
    ensures checks[0] <= checks[|checks| - 1]
  {
    if |checks| > 1 {
      SteadyGrows(checks[..|checks| - 1]);
    }
  }

  /** Checks at most 300 seconds apart yield every occurrence in the span they cover exactly once per listing
      of its entry, midnights included, and nothing else. */
  lemma {:induction false} ExactlyOnce(times: seq<string>, checks: seq<int>, t: string, at: int)
    requires |checks| > 0 && Steady(checks)
    ensures multiset(AllDue(times, checks))[Due(t, at)] ==
      if checks[0] < at <= checks[|checks| - 1] && OccursAt(t, at) then multiset(times)[t] else 0
  {
    if |checks| > 1 {
      hide OccursAt, WindowDue;
      var rest := checks[1..];
      SteadyTail(checks);
      ExactlyOnce(times, rest, t, at);
      SteadyGrows(rest);
      WindowCount(times, checks[0], checks[1], t, at);
    }
  }

  // ---- The loop ----

  /** What a sequence of due slots leads to: those started, the last slot remembered, how many more operations
      would succeed, and whether all went well. */
  datatype Firing = Firing(fired: seq<Due>, slot: Option<int>, left: nat, ok: bool)

  /** Starts each slot unless it is the one remembered. The slot is remembered before the start, which is one
      operation and raises when none is left to succeed. */
  function FireAll(due: seq<Due>, slot: Option<int>, left: nat): Firing {
    if due == [] then Firing([], slot, left, true)
    else if Some(due[0].at) == slot then FireAll(due[1..], slot, left)
    else if left == 0 then Firing([], Some(due[0].at), 0, false)
    else
      var f := FireAll(due[1..], Some(due[0].at), left - 1);
      f.(fired := [due[0]] + f.fired)
  }

  /** The settings of one pass; None where the schedule is switched off. */
  datatype Plan = Plan(collect: Option<seq<string>>, facility: Option<string>)

  datatype Clock = Clock(last: int, slot: Option<int>, facilitySlot: Option<int>)

  datatype Pass = Pass(clock: Clock, fired: seq<Due>, facilityFired: seq<Due>, ok: bool)

  function FirePart(times: Option<seq<string>>, last: int, now: int, slot: Option<int>, left: nat): Firing {
    if times.Some? then FireAll(DueAt(times.value, last, now), slot, left) else Firing([], slot, left, true)
  }

  function FacilityTimes(plan: Plan): Option<seq<string>> {
    if plan.facility.Some? then Some([plan.facility.value]) else None
  }

  /** One pass whose first `left` operations succeed: reading each schedule, starting each slot and purging
      are operations. Whatever raises ends the pass and leaves `last` as it was. */
  function PassOf(c: Clock, plan: Plan, now: int, left: nat): Pass {
    if left == 0 then Pass(c, [], [], false) else
    var a := FirePart(plan.collect, c.last, now, c.slot, left - 1);
    if !a.ok || a.left == 0 then Pass(c.(slot := a.slot), a.fired, [], false) else
    var b := FirePart(FacilityTimes(plan), c.last, now, c.facilitySlot, a.left - 1);
    if !b.ok || b.left == 0 then Pass(Clock(c.last, a.slot, b.slot), a.fired, b.fired, false) else
    Pass(Clock(now, a.slot, b.slot), a.fired, b.fired, true)
  }

  class Scheduler {
    var lastCheck: int
    var lastSlot: Option<int>
    var lastFacilitySlot: Option<int>

    ghost function State(): Clock
      reads this
    {
      Clock(lastCheck, lastSlot, lastFacilitySlot)
    }

    constructor (now: int)
      ensures State() == Clock(now, None, None)
    {
      lastCheck, lastSlot, lastFacilitySlot := now, None, None;
    }

    method Fire(times: seq<string>, now: int, slot: Option<int>, left: nat) returns (f: Firing)
      ensures f == FireAll(DueAt(times, lastCheck, now), slot, left)
    {
      var due := DueSlots(times, Some(lastCheck), now);
      f := Firing([], slot, left, true);
      for k := 0 to |due|
        invariant f.ok
        invariant var g := FireAll(due[k..], f.slot, f.left);
          FireAll(due, slot, left) == g.(fired := f.fired + g.fired)
      {
        hide DueAt;
        assert due[k..][1..] == due[k + 1..];
        if Some(due[k].at) != f.slot {
          if f.left == 0 {
            f := Firing(f.fired, Some(due[k].at), 0, false);
            return;
          }
          ghost var g := FireAll(due[k + 1..], Some(due[k].at), f.left - 1);
          assert f.fired + ([due[k]] + g.fired) == (f.fired + [due[k]]) + g.fired;
          f := Firing(f.fired + [due[k]], Some(due[k].at), f.left - 1, true);
        }
      }
      assert due[|due|..] == [];
    }

    method RunPass(plan: Plan, now: int, left: nat) returns (fired: seq<Due>, facilityFired: seq<Due>, ok: bool)
      modifies this
      ensures Pass(State(), fired, facilityFired, ok) == PassOf(old(State()), plan, now, left)
    {
      hide FireAll, DueAt;
      fired, facilityFired, ok := [], [], false;
      if left == 0 {
        return;
      }
      var rest := left - 1;
      if plan.collect.Some? {
        var f := Fire(plan.collect.value, now, lastSlot, rest);
        lastSlot, fired, rest := f.slot, f.fired, f.left;
        if !f.ok { return; }
      }
      if rest == 0 {
        return;
      }
      rest := rest - 1;
      if plan.facility.Some? {
        var f := Fire([plan.facility.value], now, lastFacilitySlot, rest);
        lastFacilitySlot, facilityFired, rest := f.slot, f.fired, f.left;
        if !f.ok { return; }
      }
      if rest == 0 {
        return;
      }
      lastCheck, ok := now, true;
    }
  }
}

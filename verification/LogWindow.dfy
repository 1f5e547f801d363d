/** The flapping decision of core/log_analyzer.py: year rollover repair, the two-pointer window maximum and
    the threshold test. */
module LogWindow {
  // ---- Time stamps ----

  /** A parsed log time: calendar date and second of the day. */
  datatype Stamp = Stamp(year: int, month: int, day: int, second: int)

  const DAY: int := 86400

  const ROLLOVER_DAYS: int := 300

  const MAX_YEAR: int := 9999

  predicate IsLeap(y: int) { y % 4 == 0 && (y % 100 != 0 || y % 400 == 0) }

  function DaysBeforeMonth(m: int): int {
    if m <= 1 then 0 else if m == 2 then 31 else if m == 3 then 59 else if m == 4 then 90 else if m == 5 then 120
    else if m == 6 then 151 else if m == 7 then 181 else if m == 8 then 212 else if m == 9 then 243
    else if m == 10 then 273 else if m == 11 then 304 else if m == 12 then 334 else 365
  }

  function DaysInMonth(y: int, m: int): int {
    if m == 2 && IsLeap(y) then 29 else DaysBeforeMonth(m + 1) - DaysBeforeMonth(m)
  }

  predicate Valid(t: Stamp) {
    1 <= t.year <= MAX_YEAR && 1 <= t.month <= 12 && 1 <= t.day <= DaysInMonth(t.year, t.month) && 0 <= t.second < DAY
  }

  function DaysBeforeYear(y: int): int { 365 * (y - 1) + (y - 1) / 4 - (y - 1) / 100 + (y - 1) / 400 }

  function DayOfYear(t: Stamp): int {
    DaysBeforeMonth(t.month) + t.day + (if t.month > 2 && IsLeap(t.year) then 1 else 0)
  }

  /** Seconds on one time line, so that differences are `total_seconds()`. */
  function Seconds(t: Stamp): int { (DaysBeforeYear(t.year) + DayOfYear(t)) * DAY + t.second }

  // ---- Year rollover ----

  predicate Rollover(prev: Stamp, cur: Stamp) { Seconds(cur) - Seconds(prev) < -ROLLOVER_DAYS * DAY }

  /** How many rollovers precede entry `k`. */
  function Bump(ts: seq<Stamp>, k: nat): nat
    requires k < |ts|
  {
    if k == 0 then 0 else Bump(ts, k - 1) + (if Rollover(ts[k - 1], ts[k]) then 1 else 0)
  }

  /** `cur.replace(year=...)`, or the original where there is no such date. */
  function Shift(t: Stamp, bump: nat): Stamp {
    if bump > 0 && Valid(t.(year := t.year + bump)) then t.(year := t.year + bump) else t
  }

  function Fixed(ts: seq<Stamp>): (out: seq<Stamp>)
    ensures |out| == |ts| && forall k :: 0 <= k < |ts| ==> out[k] == Shift(ts[k], Bump(ts, k))
  {
    seq(|ts|, k requires 0 <= k < |ts| => Shift(ts[k], Bump(ts, k)))
  }

  method FixYearRollover(ts: seq<Stamp>) returns (out: seq<Stamp>)
    ensures out == Fixed(ts)
  {
    hide Rollover, Shift;
    if |ts| < 2 {
      FixedShort(ts);
      return ts;
    }
    ShiftNothing(ts[0]);
    out := [ts[0]];
    var bump := 0;
    for k := 1 to |ts|
      invariant |out| == k && bump == Bump(ts, k - 1)
      invariant forall j :: 0 <= j < k ==> out[j] == Shift(ts[j], Bump(ts, j))
    {
      if Rollover(ts[k - 1], ts[k]) {
        bump := bump + 1;
      }
      out := out + [Shift(ts[k], bump)];
    }
  }

  lemma ShiftNothing(t: Stamp)
    ensures Shift(t, 0) == t
  {
  }

  lemma FixedShort(ts: seq<Stamp>)
    requires |ts| < 2
    ensures Fixed(ts) == ts
  {
    if ts != [] { ShiftNothing(ts[0]); }
  }

  lemma YearLength(y: int)
    ensures DaysBeforeYear(y + 1) == DaysBeforeYear(y) + (if IsLeap(y) then 366 else 365)
  {
    hide IsLeap;
    Quotients(y - 1);
    LeapByDivisors(y);
  }

  lemma Quotients(n: int)
    ensures (n + 1) / 4 == n / 4 + (if (n + 1) % 4 == 0 then 1 else 0)
    ensures (n + 1) / 100 == n / 100 + (if (n + 1) % 100 == 0 then 1 else 0)
    ensures (n + 1) / 400 == n / 400 + (if (n + 1) % 400 == 0 then 1 else 0)
  {
  }

  lemma LeapByDivisors(y: int)
    ensures (if IsLeap(y) then 1 else 0) ==
      (if y % 4 == 0 then 1 else 0) - (if y % 100 == 0 then 1 else 0) + (if y % 400 == 0 then 1 else 0)
  {
    assert y == 400 * (y / 400) + y % 400;
    assert y == 100 * (y / 100) + y % 100;
    if y % 100 == 0 {
      assert y == 4 * (25 * (y / 100));
    }
    if y % 400 == 0 {
      assert y == 100 * (4 * (y / 400));
    }
  }

  lemma {:induction false} YearsGrow(y: int, z: int)
    requires y < z
    ensures DaysBeforeYear(y) + (if IsLeap(y) then 366 else 365) <= DaysBeforeYear(z)
    decreases z - y
  {
    hide DaysBeforeYear, IsLeap;
    YearLength(y);
    if y + 1 < z { YearsGrow(y + 1, z); }
  }

  lemma DayBounds(t: Stamp)
    requires Valid(t)
    ensures (DaysBeforeYear(t.year) + 1) * DAY <= Seconds(t)
    ensures Seconds(t) < (DaysBeforeYear(t.year) + (if IsLeap(t.year) then 366 else 365) + 1) * DAY
  {
    hide DaysBeforeYear, IsLeap;
  }

  lemma LaterYear(a: Stamp, b: Stamp)
    requires Valid(a) && Valid(b) && a.year < b.year
    ensures Seconds(a) < Seconds(b)
  {
    hide Valid, Seconds, DaysBeforeYear, IsLeap;
    YearsGrow(a.year, b.year);
    DayBounds(a);
    DayBounds(b);
  }

  lemma SameOrderInAnyYear(a: Stamp, b: Stamp, k: nat)
    requires Valid(a) && Valid(b) && a.year == b.year && Seconds(a) <= Seconds(b)
    requires Valid(a.(year := a.year + k)) && Valid(b.(year := b.year + k))
    ensures Seconds(a.(year := a.year + k)) <= Seconds(b.(year := b.year + k))
  {
    hide DaysBeforeYear;
  }

  ghost predicate InOrder(ts: seq<Stamp>) { forall k :: 0 < k < |ts| ==> Seconds(ts[k - 1]) <= Seconds(ts[k]) }

  /** A log whose stamps carry no year: all are read in one year, and each entry is no earlier than the one
      before it, unless the year turned between them. */
  ghost predicate Yearless(ts: seq<Stamp>) {
    && (forall i :: 0 <= i < |ts| ==> Valid(ts[i]) && ts[i].year == ts[0].year)
    && (forall i :: 0 < i < |ts| ==> Rollover(ts[i - 1], ts[i]) || Seconds(ts[i - 1]) <= Seconds(ts[i]))
  }

  /** The date of entry `k` exists in the year it belongs to; only 29 February (or the last year of the
      calendar) can fail. */
  ghost predicate MovableAt(ts: seq<Stamp>, k: nat)
    requires k < |ts|
  {
    Valid(ts[k].(year := ts[k].year + Bump(ts, k)))
  }

  /** The repair puts such a log in order exactly when every entry's date exists in the year it belongs to: a
      29 February that does not stays behind in its own year. */
  lemma OrderRestoredIff(ts: seq<Stamp>)
    requires Yearless(ts)
    ensures InOrder(Fixed(ts)) <==> forall k :: 0 <= k < |ts| ==> MovableAt(ts, k)
  {
    hide Seconds, Valid, Fixed, Yearless, MovableAt;
    if forall k :: 0 <= k < |ts| ==> MovableAt(ts, k) {
      forall k | 0 < k < |ts| ensures Seconds(Fixed(ts)[k - 1]) <= Seconds(Fixed(ts)[k]) {
        RestoredAt(ts, k);
      }
    } else {
      var stuck :| 0 <= stuck < |ts| && !MovableAt(ts, stuck);
      StuckOutOfOrder(ts, stuck);
    }
  }

  /** For instance: 31 December followed by 29 February, both read in the year 2000. The second belongs to 2001,
      which has no such day. */
  lemma LeapDayStaysBehind()
    ensures
      var ts := [Stamp(2000, 12, 31, 0), Stamp(2000, 2, 29, 0)];
      Yearless(ts) && Fixed(ts) == ts && !InOrder(Fixed(ts))
  {
    var ts := [Stamp(2000, 12, 31, 0), Stamp(2000, 2, 29, 0)];
    assert IsLeap(2000) && !IsLeap(2001);
    assert Rollover(ts[0], ts[1]);
    assert Bump(ts, 0) == 0 && Bump(ts, 1) == 1;
    assert Fixed(ts) == ts;
    assert Seconds(ts[0]) > Seconds(ts[1]);
  }

  lemma RestoredAt(ts: seq<Stamp>, k: nat)
    requires Yearless(ts) && 0 < k < |ts| && MovableAt(ts, k - 1) && MovableAt(ts, k)
    ensures Seconds(Fixed(ts)[k - 1]) <= Seconds(Fixed(ts)[k])
  {
    hide Seconds, Valid, Fixed, Shift, Bump, Rollover;
    var a, b, n := ts[k - 1], ts[k], Bump(ts, k - 1);
    BumpStep(ts, k);
    ShiftMovable(ts, k - 1);
    ShiftMovable(ts, k);
    if Rollover(a, b) {
      LaterYear(a.(year := a.year + n), b.(year := b.year + n + 1));
    } else {
      SameOrderInAnyYear(a, b, n);
    }
  }

  lemma {:induction false} StuckOutOfOrder(ts: seq<Stamp>, k: nat)
    requires Yearless(ts) && k < |ts| && !MovableAt(ts, k)
    ensures !InOrder(Fixed(ts))
  {
    hide Seconds, Valid, Fixed, Shift, Bump, Rollover;
    BumpStep(ts, k);
    assert k > 0;
    if !MovableAt(ts, k - 1) {
      StuckOutOfOrder(ts, k - 1);
    } else {
      ShiftMovable(ts, k - 1);
      ShiftStuck(ts, k);
      if Bump(ts, k - 1) > 0 {
        LaterYear(Fixed(ts)[k], Fixed(ts)[k - 1]);
      } else {
        RolloverIsBack(ts[k - 1], ts[k]);
        assert Fixed(ts)[k - 1] == ts[k - 1];
      }
      assert Seconds(Fixed(ts)[k - 1]) > Seconds(Fixed(ts)[k]);
    }
  }

  lemma RolloverIsBack(prev: Stamp, cur: Stamp)
    requires Rollover(prev, cur)
    ensures Seconds(cur) < Seconds(prev)
  {
    hide Seconds;
  }

  lemma ShiftMovable(ts: seq<Stamp>, k: nat)
    requires k < |ts| && MovableAt(ts, k)
    ensures Fixed(ts)[k] == ts[k].(year := ts[k].year + Bump(ts, k)) && Valid(Fixed(ts)[k])
  {
    hide Valid, Bump;
  }

  lemma ShiftStuck(ts: seq<Stamp>, k: nat)
    requires k < |ts| && !MovableAt(ts, k)
    ensures Fixed(ts)[k] == ts[k]
  {
    hide Valid, Bump;
  }

  lemma BumpStep(ts: seq<Stamp>, k: nat)
    requires k < |ts|
    ensures Bump(ts, k) == if k == 0 then 0 else Bump(ts, k - 1) + (if Rollover(ts[k - 1], ts[k]) then 1 else 0)
  {
    hide Rollover;
  }

  // ---- The window maximum ----

  function Times(ts: seq<Stamp>): (xs: seq<int>)
    ensures |xs| == |ts|
  {
    seq(|ts|, k requires 0 <= k < |ts| => Seconds(ts[k]))
  }

  /** How many of the times lie in the window of length `w` that opens at `start`. */
  function CountIn(xs: seq<int>, start: int, w: int): nat {
    if xs == [] then 0 else (if start <= xs[0] <= start + w then 1 else 0) + CountIn(xs[1..], start, w)
  }

  ghost predicate Ascending(xs: seq<int>) { forall i, j :: 0 <= i <= j < |xs| ==> xs[i] <= xs[j] }

  function Insert(xs: seq<int>, x: int): seq<int> {
    if xs == [] || x <= xs[0] then [x] + xs else [xs[0]] + Insert(xs[1..], x)
  }

  /** `sorted(...)` */
  function Sorted(xs: seq<int>): seq<int> { if xs == [] then [] else Insert(Sorted(xs[1..]), xs[0]) }

  lemma {:induction false} InsertAscending(xs: seq<int>, x: int)
    requires Ascending(xs)
    ensures Ascending(Insert(xs, x)) && forall y :: y in Insert(xs, x) <==> y == x || y in xs
  {
    if xs != [] && x > xs[0] {
      InsertAscending(xs[1..], x);
      assert xs == [xs[0]] + xs[1..];
      var rest := Insert(xs[1..], x);
      forall j | 0 <= j < |rest| ensures xs[0] <= rest[j] {
        assert rest[j] in rest;
      }
    }
  }

  lemma {:induction false} InsertCount(xs: seq<int>, x: int, start: int, w: int)
    ensures CountIn(Insert(xs, x), start, w) == CountIn(xs, start, w) + (if start <= x <= start + w then 1 else 0)
  {
    if xs == [] || x <= xs[0] {
      assert ([x] + xs)[1..] == xs;
    } else {
      InsertCount(xs[1..], x, start, w);
      assert Insert(xs, x)[1..] == Insert(xs[1..], x);
    }
  }

  lemma {:induction false} SortedFacts(xs: seq<int>)
    ensures Ascending(Sorted(xs)) && |Sorted(xs)| == |xs|
    ensures forall start, w :: CountIn(Sorted(xs), start, w) == CountIn(xs, start, w)
  {
    if xs != [] {
      SortedFacts(xs[1..]);
      InsertAscending(Sorted(xs[1..]), xs[0]);
      InsertLength(Sorted(xs[1..]), xs[0]);
      forall start, w ensures CountIn(Sorted(xs), start, w) == CountIn(xs, start, w) {
        InsertCount(Sorted(xs[1..]), xs[0], start, w);
      }
    }
  }

  lemma {:induction false} InsertLength(xs: seq<int>, x: int)
    ensures |Insert(xs, x)| == |xs| + 1
  {
    if xs != [] && x > xs[0] { InsertLength(xs[1..], x); }
  }

  lemma {:induction false} CountAtMost(xs: seq<int>, start: int, w: int, p: nat, q: nat)
    requires p <= q <= |xs| && forall i :: 0 <= i < |xs| && start <= xs[i] <= start + w ==> p <= i < q
    ensures CountIn(xs, start, w) <= q - p
  {
    if xs != [] {
      CountAtMost(xs[1..], start, w, if p > 0 then p - 1 else 0, if q > 0 then q - 1 else 0);
    }
  }

  lemma {:induction false} CountAtLeast(xs: seq<int>, start: int, w: int, p: nat, q: nat)
    requires p <= q <= |xs| && forall i :: p <= i < q ==> start <= xs[i] <= start + w
    ensures CountIn(xs, start, w) >= q - p
  {
    if xs != [] {
      CountAtLeast(xs[1..], start, w, if p > 0 then p - 1 else 0, if q > 0 then q - 1 else 0);
    }
  }

  /** `best` is the largest number of the times that fit in one window of length `w`. */
  ghost predicate IsWindowMaximum(xs: seq<int>, w: int, best: int) {
    && (forall start :: CountIn(xs, start, w) <= best)
    && (if xs == [] then best == 0 else exists start :: CountIn(xs, start, w) == best)
  }

  method MaxInWindow(ts: seq<Stamp>, windowMin: nat) returns (best: nat)
    ensures IsWindowMaximum(Times(Fixed(ts)), 60 * windowMin, best)
  {
    hide Times, Fixed, IsWindowMaximum;
    var fixed := FixYearRollover(ts);
    var times := Times(fixed);
    var xs := Sorted(times);
    SortedFacts(times);
    best := WidestSpan(xs, 60 * windowMin);
    SameMaximum(xs, times, 60 * windowMin, best);
  }

  lemma SameMaximum(xs: seq<int>, ys: seq<int>, w: int, best: int)
    requires IsWindowMaximum(xs, w, best) && |xs| == |ys| && forall start, w :: CountIn(xs, start, w) == CountIn(ys, start, w)
    ensures IsWindowMaximum(ys, w, best)
  {
    hide CountIn;
    assert xs == [] <==> ys == [];
    forall start ensures CountIn(ys, start, w) <= best { assert CountIn(xs, start, w) <= best; }
    if xs != [] {
      var start :| CountIn(xs, start, w) == best;
      assert CountIn(ys, start, w) == best;
    }
  }

  /** The two pointers. */
  method WidestSpan(xs: seq<int>, w: nat) returns (best: nat)
    requires Ascending(xs)
    ensures IsWindowMaximum(xs, w, best)
  {
    hide IsWindowMaximum;
    best := 0;
    var lo := 0;
    ghost var from, to := 0, 0;
    for hi := 0 to |xs|
      invariant 0 <= lo <= hi && (hi > 0 ==> lo < hi)
      invariant forall i :: 0 <= i < lo && hi > 0 ==> xs[hi - 1] - xs[i] > w
      invariant 0 <= from <= to <= hi && best == to - from && (hi > 0 ==> from < to && xs[to - 1] - xs[from] <= w)
      invariant forall i, j :: 0 <= i <= j < hi && xs[j] - xs[i] <= w ==> j - i + 1 <= best
    {
      while xs[hi] - xs[lo] > w
        invariant 0 <= lo <= hi
        invariant forall i :: 0 <= i < lo ==> xs[hi] - xs[i] > w
        decreases hi - lo
      {
        lo := lo + 1;
      }
      if hi - lo + 1 > best {
        best, from, to := hi - lo + 1, lo, hi + 1;
      }
    }
    WindowMaximum(xs, w, from, to);
  }

  lemma WindowMaximum(xs: seq<int>, w: nat, from: nat, to: nat)
    requires Ascending(xs) && from <= to <= |xs| && (xs != [] ==> from < to && xs[to - 1] - xs[from] <= w)
    requires forall i, j :: 0 <= i <= j < |xs| && xs[j] - xs[i] <= w ==> j - i + 1 <= to - from
    ensures IsWindowMaximum(xs, w, to - from)
  {
    forall start ensures CountIn(xs, start, w) <= to - from {
      if CountIn(xs, start, w) > 0 {
        var p, q := Span(xs, start, w);
        CountAtMost(xs, start, w, p, q);
      }
    }
    if xs != [] {
      CountAtLeast(xs, xs[from], w, from, to);
      assert CountIn(xs, xs[from], w) == to - from;
    }
  }

  /** In ascending order the entries of a window are next to one another. */
  lemma {:induction false} Span(xs: seq<int>, start: int, w: nat) returns (p: nat, q: nat)
    requires Ascending(xs) && CountIn(xs, start, w) > 0
    ensures p < q <= |xs| && start <= xs[p] && xs[q - 1] <= start + w
    ensures forall i :: 0 <= i < |xs| && start <= xs[i] <= start + w ==> p <= i < q
  {
    if start <= xs[0] <= start + w {
      p, q := 0, |xs|;
      while xs[q - 1] > start + w
        invariant 1 <= q <= |xs| && forall i :: q <= i < |xs| ==> xs[i] > start + w
        decreases q
      {
        q := q - 1;
      }
    } else {
      p, q := Span(xs[1..], start, w);
      p, q := p + 1, q + 1;
    }
  }

  lemma ByMaximum(xs: seq<int>, w: int, best: int, threshold: int)
    requires IsWindowMaximum(xs, w, best)
    ensures best >= threshold <==> exists start :: CountIn(xs, start, w) >= threshold
  {
    hide CountIn;
    if best >= threshold {
      var start := 0;
      if xs != [] { start :| CountIn(xs, start, w) == best; } else { EmptyCount(w); }
      assert CountIn(xs, start, w) >= threshold;
    }
  }

  lemma EmptyCount(w: int)
    ensures CountIn([], 0, w) == 0
  {
  }

  /** The decision for one interface: `count` link events, of which those in `ts` had a readable time. With
      enough readable times it flaps exactly when some window holds `threshold` of them; otherwise the bare
      count decides. */
  method Flapping(count: nat, ts: seq<Stamp>, threshold: int, windowMin: nat) returns (flapping: bool)
    requires |ts| <= count
    ensures |ts| >= threshold ==>
      (flapping <==> exists start :: CountIn(Times(Fixed(ts)), start, 60 * windowMin) >= threshold)
    ensures |ts| < threshold ==> (flapping <==> count >= threshold)
  {
    if count < threshold {
      return false;
    }
    if |ts| >= threshold {
      hide Times, Fixed;
      var best := MaxInWindow(ts, windowMin);
      flapping := best >= threshold;
      ByMaximum(Times(Fixed(ts)), 60 * windowMin, best, threshold);
      return;
    }
    flapping := true;
  }

  // ---- Counting days and events ----

  predicate JumpsBack(ts: seq<Stamp>, j: int) { 0 < j < |ts| && Seconds(ts[j - 1]) - Seconds(ts[j]) > 300 * 86400 }

  /** The entries before which the clock jumps back by more than 300 days. */
  function Jumps(ts: seq<Stamp>, k: nat): set<int>
    requires k < |ts|
  {
    set j | 0 < j <= k && JumpsBack(ts, j)
  }

  /** Each entry is moved by one year for each such jump up to it. */
  lemma {:induction false} BumpCounts(ts: seq<Stamp>, k: nat)
    requires k < |ts|
    ensures Bump(ts, k) == |Jumps(ts, k)|
  {
    hide Seconds;
    if k == 0 {
      assert Jumps(ts, 0) == {};
    } else {
      BumpCounts(ts, k - 1);
      var own := if Rollover(ts[k - 1], ts[k]) then {k} else {};
      assert Jumps(ts, k) == Jumps(ts, k - 1) + own;
    }
  }

  /** A log without such a jump, such as one whose times carry a year, is left as it is. */
  lemma NoJumpNoChange(ts: seq<Stamp>)
    requires forall j :: !JumpsBack(ts, j)
    ensures Fixed(ts) == ts
  {
    hide Seconds, Valid;
    forall k | 0 <= k < |ts| ensures Fixed(ts)[k] == ts[k] {
      BumpCounts(ts, k);
      assert Jumps(ts, k) == {};
    }
  }

  function MonthLength(y: int, m: int): int {
    if m == 2 then (if y % 400 == 0 || (y % 4 == 0 && y % 100 != 0) then 29 else 28)
    else if m in {4, 6, 9, 11} then 30 else 31
  }

  /** The next day of the calendar, at the same time. */
  function Tomorrow(t: Stamp): Stamp {
    if t.day < MonthLength(t.year, t.month) then t.(day := t.day + 1)
    else if t.month < 12 then t.(month := t.month + 1, day := 1)
    else t.(year := t.year + 1, month := 1, day := 1)
  }

  /** The time line follows the calendar: a day is 86400 seconds, through months, leap years and centuries; and a date
      is one that the calendar has. */
  lemma TomorrowIsNext(t: Stamp)
    requires Valid(t)
    ensures Seconds(Tomorrow(t)) == Seconds(t) + 86400
    ensures t.day <= MonthLength(t.year, t.month)
  {
    hide DaysBeforeYear;
    YearLength(t.year);
  }

  lemma ValidIff(t: Stamp)
    ensures Valid(t) <==>
      && 1 <= t.year <= 9999 && 1 <= t.month <= 12 && 1 <= t.day <= MonthLength(t.year, t.month) && 0 <= t.second < 86400
  {
  }

  /** How many of the times lie in a window, both ends included. */
  lemma {:induction false} CountIs(xs: seq<int>, start: int, w: int)
    ensures CountIn(xs, start, w) == |set i | 0 <= i < |xs| && xs[i] >= start && xs[i] - start <= w|
  {
    if xs != [] {
      var n := |xs| - 1;
      CountIs(xs[..n], start, w);
      CountLast(xs, start, w);
      var inside := set i | 0 <= i < |xs| && xs[i] >= start && xs[i] - start <= w;
      var before := set i | 0 <= i < |xs[..n]| && xs[..n][i] >= start && xs[..n][i] - start <= w;
      var own := if start <= xs[n] <= start + w then {n} else {};
      assert inside == before + own;
    }
  }

  lemma {:induction false} CountLast(xs: seq<int>, start: int, w: int)
    requires xs != []
    ensures CountIn(xs, start, w) == CountIn(xs[..|xs| - 1], start, w) + if start <= xs[|xs| - 1] <= start + w then 1 else 0
  {
    if |xs| > 1 {
      CountLast(xs[1..], start, w);
      assert xs[1..][..|xs| - 2] == xs[..|xs| - 1][1..];
    }
  }
}

/** The counter arithmetic of core/metrics_poller.py: increments of error counters and traffic rates, each kept
    against the sample before it. */
module Counters {
  import opened Text
  import opened Wrappers

  datatype Key = InErr | OutErr | InDisc | OutDisc | Crc

  const KEYS: seq<Key> := [InErr, OutErr, InDisc, OutDisc, Crc]

  /** The counters of one port at one poll; a counter the device did not give is absent. */
  type Sample = map<Key, int>

  // ---- Error counters ----

  /** What grew between two samples, counter by counter. */
  function Grown(o: Sample, c: Sample): Sample { map k | k in c && k in o && c[k] > o[k] :: c[k] - o[k] }

  /** An empty filter lets every port through. */
  predicate Wanted(port: string, filter: set<string>) { filter == {} || Lower(port) in filter }

  function Deltas(prev: map<string, Sample>, cur: map<string, Sample>, filter: set<string>): map<string, Sample> {
    map p | p in cur && Wanted(p, filter) && p in prev && Grown(prev[p], cur[p]) != map[] :: Grown(prev[p], cur[p])
  }

  function WantedOf(cur: map<string, Sample>, filter: set<string>): map<string, Sample> {
    map p | p in cur && Wanted(p, filter) :: cur[p]
  }

  function Baseline(prev: map<string, Sample>, cur: map<string, Sample>, filter: set<string>): map<string, Sample> {
    prev + WantedOf(cur, filter)
  }

  lemma BaselineOne(prev: map<string, Sample>, read: map<string, Sample>, filter: set<string>, port: string, c: Sample)
    requires port !in read
    ensures Baseline(prev, read[port := c], filter) ==
      if Wanted(port, filter) then Baseline(prev, read, filter)[port := c] else Baseline(prev, read, filter)
  {
    hide WantedOf;
    WantedOne(read, filter, port, c);
    AddLast(prev, WantedOf(read, filter), port, c);
  }

  lemma WantedOne(read: map<string, Sample>, filter: set<string>, port: string, c: Sample)
    requires port !in read
    ensures WantedOf(read[port := c], filter) ==
      if Wanted(port, filter) then WantedOf(read, filter)[port := c] else WantedOf(read, filter)
  {
    hide Wanted;
  }

  lemma AddLast<T>(a: map<string, T>, b: map<string, T>, port: string, c: T)
    ensures a + b[port := c] == (a + b)[port := c]
  {
  }

  lemma NotYetRead(prev: map<string, Sample>, read: map<string, Sample>, filter: set<string>, port: string)
    requires port !in read
    ensures port in Baseline(prev, read, filter) <==> port in prev
    ensures port in prev ==> Baseline(prev, read, filter)[port] == prev[port]
  {
    hide Wanted;
  }

  lemma DeltasOne(prev: map<string, Sample>, read: map<string, Sample>, filter: set<string>, port: string, c: Sample)
    requires port !in read
    ensures Deltas(prev, read[port := c], filter) ==
      if Wanted(port, filter) && port in prev && Grown(prev[port], c) != map[]
      then Deltas(prev, read, filter)[port := Grown(prev[port], c)] else Deltas(prev, read, filter)
  {
    hide Grown, Wanted;
    var now, was := Deltas(prev, read[port := c], filter), Deltas(prev, read, filter);
    assert port !in was;
    if Wanted(port, filter) && port in prev && Grown(prev[port], c) != map[] {
      assert now.Keys == was.Keys + {port};
    } else {
      assert now.Keys == was.Keys;
    }
  }

  class ErrorCounters {
    var prev: map<string, Sample>

    constructor ()
      ensures prev == map[]
    {
      prev := map[];
    }

    method ComputeErrorDelta(cur: map<string, Sample>, filter: set<string>) returns (delta: map<string, Sample>)
      modifies this
      ensures delta == Deltas(old(prev), cur, filter)
      ensures prev == Baseline(old(prev), cur, filter)
    {
      delta := map[];
      var todo := cur.Keys;
      ghost var read: map<string, Sample> := map[];
      while todo != {}
        invariant read.Keys !! todo && read.Keys + todo == cur.Keys && forall p :: p in read ==> read[p] == cur[p]
        invariant prev == Baseline(old(prev), read, filter)
        invariant delta == Deltas(old(prev), read, filter)
        decreases todo
      {
        hide Grown, Wanted, Deltas, Baseline;
        var port :| port in todo;
        todo := todo - {port};
        NotYetRead(old(prev), read, filter, port);
        BaselineOne(old(prev), read, filter, port, cur[port]);
        DeltasOne(old(prev), read, filter, port, cur[port]);
        read := read[port := cur[port]];
        if Wanted(port, filter) {
          var known, o := port in prev, if port in prev then prev[port] else map[];
          prev := prev[port := cur[port]];
          if known {
            var d := GrownCounters(o, cur[port]);
            if d != map[] {
              delta := delta[port := d];
            }
          }
        }
      }
      assert read == cur;
    }

    method GrownCounters(o: Sample, c: Sample) returns (d: Sample)
      ensures d == Grown(o, c)
    {
      d := map[];
      for i := 0 to |KEYS|
        invariant d == map k | k in Grown(o, c) && k in KEYS[..i] :: Grown(o, c)[k]
      {
        assert KEYS[..i + 1] == KEYS[..i] + [KEYS[i]];
        var k := KEYS[i];
        if k in c && k in o && c[k] - o[k] > 0 {
          d := d[k := c[k] - o[k]];
        }
      }
      EveryKey();
      assert KEYS[..|KEYS|] == KEYS;
    }
  }

  lemma EveryKey()
    ensures forall k: Key :: k in KEYS
  {
    forall k: Key ensures k in KEYS {
      match k {
        case InErr => assert KEYS[0] == k;
        case OutErr => assert KEYS[1] == k;
        case InDisc => assert KEYS[2] == k;
        case OutDisc => assert KEYS[3] == k;
        case Crc => assert KEYS[4] == k;
      }
    }
  }

  function Entered(delta: map<string, Sample>, port: string, k: Key): int {
    if port in delta && k in delta[port] then delta[port][k] else 0
  }

  /** The sum of what a run of polls records for one counter of one port. */
  function Recorded(prev: map<string, Sample>, polls: seq<map<string, Sample>>, filter: set<string>, port: string, k: Key): int
    decreases |polls|
  {
    if polls == [] then 0 else
    Entered(Deltas(prev, polls[0], filter), port, k) +
      Recorded(Baseline(prev, polls[0], filter), polls[1..], filter, port, k)
  }

  /** The samples of one port that the polls bring, skipping the polls it is missing from. */
  function Seen(polls: seq<map<string, Sample>>, port: string): seq<Sample> {
    if polls == [] then [] else (if port in polls[0] then [polls[0][port]] else []) + Seen(polls[1..], port)
  }

  /** The increases of one counter from sample to sample, drops left out. */
  function Gains(samples: seq<Sample>, k: Key): int {
    if |samples| < 2 then 0 else Gain(samples[0], samples[1], k) + Gains(samples[1..], k)
  }

  function Gain(o: Sample, c: Sample, k: Key): int {
    if k in o && k in c && c[k] > o[k] then c[k] - o[k] else 0
  }

  function Drops(samples: seq<Sample>, k: Key): nat {
    if |samples| < 2 then 0 else
    (if k in samples[0] && k in samples[1] && samples[1][k] < samples[0][k] then samples[0][k] - samples[1][k] else 0) +
      Drops(samples[1..], k)
  }

  function Known(prev: map<string, Sample>, port: string): Option<Sample> {
    if port in prev then Some(prev[port]) else None
  }

  /** The increases over a run of samples that may have had one before it. */
  function GainsFrom(o: Option<Sample>, samples: seq<Sample>, k: Key): int
    decreases |samples|
  {
    if samples == [] then 0 else
    (if o.Some? then Gain(o.value, samples[0], k) else 0) + GainsFrom(Some(samples[0]), samples[1..], k)
  }

  lemma {:induction false} GainsFromIsGains(samples: seq<Sample>, k: Key)
    ensures GainsFrom(None, samples, k) == Gains(samples, k)
    ensures samples != [] ==> GainsFrom(Some(samples[0]), samples[1..], k) == Gains(samples, k)
  {
    hide Gain;
    if |samples| > 1 { GainsFromIsGains(samples[1..], k); }
  }

  /** Nothing is counted twice or lost: the recorded increments of a counter add up to its increases between
      consecutive sightings of the port, however many polls missed it in between. */
  lemma {:induction false} RecordedIsGains(prev: map<string, Sample>, polls: seq<map<string, Sample>>, filter: set<string>,
                                           port: string, k: Key)
    requires filter == {} || Lower(port) in filter
    ensures Recorded(prev, polls, filter, port, k) == GainsFrom(Known(prev, port), Seen(polls, port), k)
    decreases |polls|
  {
    assert Wanted(port, filter);
    if polls != [] {
      hide Wanted, Deltas, Baseline, Gain, Entered, Known;
      RecordedIsGains(Baseline(prev, polls[0], filter), polls[1..], filter, port, k);
      OnePoll(prev, polls[0], filter, port, k);
      SeenFirst(polls, port);
    }
  }

  lemma SeenFirst(polls: seq<map<string, Sample>>, port: string)
    requires polls != []
    ensures if port in polls[0]
            then Seen(polls, port) != [] && Seen(polls, port)[0] == polls[0][port] && Seen(polls, port)[1..] == Seen(polls[1..], port)
            else Seen(polls, port) == Seen(polls[1..], port)
  {
  }

  lemma OnePoll(prev: map<string, Sample>, cur: map<string, Sample>, filter: set<string>, port: string, k: Key)
    requires Wanted(port, filter)
    ensures Entered(Deltas(prev, cur, filter), port, k) ==
      if port in cur && Known(prev, port).Some? then Gain(Known(prev, port).value, cur[port], k) else 0
    ensures Known(Baseline(prev, cur, filter), port) == if port in cur then Some(cur[port]) else Known(prev, port)
  {
    hide Wanted;
    if port in cur && port in prev {
      var g := Grown(prev[port], cur[port]);
      assert g == map[] ==> k !in g;
    }
  }

  lemma {:induction false} UnwantedRecordsNothing(prev: map<string, Sample>, polls: seq<map<string, Sample>>,
                                                  filter: set<string>, port: string, k: Key)
    requires filter != {} && Lower(port) !in filter
    ensures Recorded(prev, polls, filter, port, k) == 0
    decreases |polls|
  {
    if polls != [] { UnwantedRecordsNothing(Baseline(prev, polls[0], filter), polls[1..], filter, port, k); }
  }

  lemma {:induction false} GainsAndDrops(samples: seq<Sample>, k: Key)
    requires samples != [] && forall i :: 0 <= i < |samples| ==> k in samples[i]
    ensures Gains(samples, k) - Drops(samples, k) == samples[|samples| - 1][k] - samples[0][k]
  {
    if |samples| > 1 {
      GainsAndDrops(samples[1..], k);
    }
  }

  lemma {:induction false} NoDropsIff(samples: seq<Sample>, k: Key)
    requires forall i :: 0 <= i < |samples| ==> k in samples[i]
    ensures Drops(samples, k) == 0 <==> forall i :: 0 < i < |samples| ==> samples[i - 1][k] <= samples[i][k]
  {
    if |samples| > 1 {
      NoDropsIff(samples[1..], k);
      assert forall i :: 0 <= i < |samples| - 1 ==> samples[1..][i] == samples[i + 1];
      if forall i :: 0 < i < |samples| - 1 ==> samples[1..][i - 1][k] <= samples[1..][i][k] {
        forall i | 1 < i < |samples| ensures samples[i - 1][k] <= samples[i][k] {
          assert samples[1..][i - 2][k] <= samples[1..][i - 1][k];
        }
      }
    }
  }

  /** From a first sighting on, a counter that every sample carries is recorded as its last value less its
      first one exactly when it never drops; each drop (a restart of the device) adds its size to that. */
  lemma RecordedIsDifferenceIff(polls: seq<map<string, Sample>>, filter: set<string>, port: string, k: Key)
    requires (filter == {} || Lower(port) in filter) && Seen(polls, port) != []
    requires forall i :: 0 <= i < |Seen(polls, port)| ==> k in Seen(polls, port)[i]
    ensures var s := Seen(polls, port);
      Recorded(map[], polls, filter, port, k) == s[|s| - 1][k] - s[0][k] + Drops(s, k)
    ensures var s := Seen(polls, port);
      Recorded(map[], polls, filter, port, k) == s[|s| - 1][k] - s[0][k] <==>
      forall i :: 0 < i < |s| ==> s[i - 1][k] <= s[i][k]
  {
    hide Wanted, Recorded, Gains, GainsFrom, Drops, Seen;
    var s := Seen(polls, port);
    RecordedIsGains(map[], polls, filter, port, k);
    GainsFromIsGains(s, k);
    GainsIsDifferenceIff(s, k);
  }

  lemma GainsIsDifferenceIff(s: seq<Sample>, k: Key)
    requires s != [] && forall i :: 0 <= i < |s| ==> k in s[i]
    ensures Gains(s, k) == s[|s| - 1][k] - s[0][k] + Drops(s, k)
    ensures Gains(s, k) == s[|s| - 1][k] - s[0][k] <==> forall i :: 0 < i < |s| ==> s[i - 1][k] <= s[i][k]
  {
    hide Gains, Drops;
    GainsAndDrops(s, k);
    NoDropsIff(s, k);
  }

  /** A poll records only what grew: no empty entries, and nothing but increases, each by its size. */
  lemma OnlyGrowth(prev: map<string, Sample>, cur: map<string, Sample>, filter: set<string>, port: string)
    requires port in Deltas(prev, cur, filter)
    ensures Deltas(prev, cur, filter)[port] != map[] && port in prev && port in cur
    ensures forall k :: k in Deltas(prev, cur, filter)[port] <==>
      k in prev[port] && k in cur[port] && cur[port][k] > prev[port][k]
    ensures forall k :: k in Deltas(prev, cur, filter)[port] ==>
      Deltas(prev, cur, filter)[port][k] == cur[port][k] - prev[port][k]
  {
  }

  // ---- Traffic ----

  /** The octet counters of one port and when they were read, in seconds. */
  datatype Reading = Reading(at: real, input: int, output: int)

  /** `int(d * 8 / dt)` for a counter that did not drop */
  function Rate(d: int, dt: real): int
    requires dt > 0.0
  {
    (8.0 * d as real / dt).Floor
  }

  predicate Usable(o: Reading, c: Reading) { c.at > o.at && c.input >= o.input && c.output >= o.output }

  function RatesOf(o: Reading, c: Reading): (int, int)
    requires Usable(o, c)
  {
    (Rate(c.input - o.input, c.at - o.at), Rate(c.output - o.output, c.at - o.at))
  }

  function Latest(prev: map<string, Reading>, cur: map<string, (int, int)>, now: real): map<string, Reading> {
    prev + map p | p in cur :: Reading(now, cur[p].0, cur[p].1)
  }

  function Rates(prev: map<string, Reading>, cur: map<string, (int, int)>, now: real): map<string, (int, int)> {
    map p | p in cur && p in prev && Usable(prev[p], Reading(now, cur[p].0, cur[p].1)) ::
      RatesOf(prev[p], Reading(now, cur[p].0, cur[p].1))
  }

  lemma LatestOne(prev: map<string, Reading>, read: map<string, (int, int)>, now: real, port: string, c: (int, int))
    requires port !in read
    ensures port in Latest(prev, read, now) <==> port in prev
    ensures port in prev ==> Latest(prev, read, now)[port] == prev[port]
    ensures Latest(prev, read[port := c], now) == Latest(prev, read, now)[port := Reading(now, c.0, c.1)]
  {
  }

  lemma MeasureOne(prev: map<string, Reading>, read: map<string, (int, int)>, now: real, port: string, c: (int, int))
    requires port !in read
    ensures Rates(prev, read[port := c], now) ==
      if port in prev && Usable(prev[port], Reading(now, c.0, c.1))
      then Rates(prev, read, now)[port := RatesOf(prev[port], Reading(now, c.0, c.1))] else Rates(prev, read, now)
  {
    hide Usable, Rate, RatesOf;
    var after, before := Rates(prev, read[port := c], now), Rates(prev, read, now);
    assert port !in before;
    if port in prev && Usable(prev[port], Reading(now, c.0, c.1)) {
      assert after.Keys == before.Keys + {port};
    } else {
      assert after.Keys == before.Keys;
    }
  }

  class TrafficCounters {
    var prev: map<string, Reading>

    constructor ()
      ensures prev == map[]
    {
      prev := map[];
    }

    method ComputeBps(cur: map<string, (int, int)>, now: real) returns (bps: map<string, (int, int)>)
      modifies this
      ensures prev == Latest(old(prev), cur, now)
      ensures bps == Rates(old(prev), cur, now)
    {
      bps := map[];
      var todo := cur.Keys;
      ghost var read: map<string, (int, int)> := map[];
      while todo != {}
        invariant read.Keys !! todo && read.Keys + todo == cur.Keys && forall p :: p in read ==> read[p] == cur[p]
        invariant prev == Latest(old(prev), read, now)
        invariant bps == Rates(old(prev), read, now)
        decreases todo
      {
        hide Rate, Rates, Latest;
        var port :| port in todo;
        todo := todo - {port};
        LatestOne(old(prev), read, now, port, cur[port]);
        MeasureOne(old(prev), read, now, port, cur[port]);
        read := read[port := cur[port]];
        var c := Reading(now, cur[port].0, cur[port].1);
        var known, o := port in prev, if port in prev then prev[port] else c;
        prev := prev[port := c];
        if !known {
          continue;
        }
        var dt := now - o.at;
        if dt <= 0.0 {
          continue;
        }
        var di, dq := c.input - o.input, c.output - o.output;
        if di < 0 || dq < 0 {
          continue;
        }
        bps := bps[port := (Rate(di, dt), Rate(dq, dt))];
      }
      assert read == cur;
    }
  }

  /** A rate is the whole number of bits per second that fits the increase: over the interval it falls short
      of the bits counted by less than one bit for each second. */
  lemma RateIsTight(d: int, dt: real)
    requires d >= 0 && dt > 0.0
    ensures Rate(d, dt) >= 0
    ensures 0.0 <= 8.0 * d as real - Rate(d, dt) as real * dt < dt
  {
    hide Rate;
    var r, v := Rate(d, dt) as real, 8.0 * d as real;
    RateFloor(d, dt);
    Scale(r, v, v / dt, dt);
  }

  lemma RateFloor(d: int, dt: real)
    requires d >= 0 && dt > 0.0
    ensures Rate(d, dt) as real <= 8.0 * d as real / dt < Rate(d, dt) as real + 1.0
  {
  }

  lemma Scale(lo: real, v: real, q: real, dt: real)
    requires dt > 0.0 && q == v / dt && lo <= q < lo + 1.0
    ensures lo * dt <= v < lo * dt + dt
  {
    assert v == q * dt;
    Below(lo, q, dt);
    Above(lo + 1.0, q, dt);
    assert (lo + 1.0) * dt == lo * dt + dt;
  }

  lemma Below(lo: real, q: real, dt: real)
    requires dt > 0.0 && lo <= q
    ensures lo * dt <= q * dt
  {
  }

  lemma Above(hi: real, q: real, dt: real)
    requires dt > 0.0 && q < hi
    ensures q * dt < hi * dt
  {
  }

  function Octets(r: Reading, outward: bool): int { if outward then r.output else r.input }

  /** One direction of the recorded pair */
  function RateOf(o: Reading, c: Reading, outward: bool): int
    requires Usable(o, c)
  {
    if outward then RatesOf(o, c).1 else RatesOf(o, c).0
  }

  /** The bits that the recorded rate stands for: the rate times the seconds it covers. */
  function Carried(o: Reading, c: Reading, outward: bool): real
    requires Usable(o, c)
  {
    RateOf(o, c, outward) as real * (c.at - o.at)
  }

  function Volume(readings: seq<Reading>, outward: bool): real {
    if |readings| < 2 then 0.0 else
    (if Usable(readings[0], readings[1]) then Carried(readings[0], readings[1], outward) else 0.0) +
      Volume(readings[1..], outward)
  }

  function Bits(o: Reading, c: Reading, outward: bool): real { 8.0 * (Octets(c, outward) - Octets(o, outward)) as real }

  lemma CarriedIsTight(o: Reading, c: Reading, outward: bool)
    requires Usable(o, c)
    ensures 0.0 <= Bits(o, c, outward) - Carried(o, c, outward) < c.at - o.at
  {
    hide Rate;
    RateIsTight(Octets(c, outward) - Octets(o, outward), c.at - o.at);
  }

  lemma BitsAdd(a: Reading, b: Reading, c: Reading, outward: bool)
    ensures Bits(a, c, outward) == Bits(a, b, outward) + Bits(b, c, outward)
  {
  }

  /** While neither counter drops, the recorded rates give the traffic of the whole span to within one bit per
      second: nothing adds up over the samples. */
  lemma {:induction false} VolumeIsTight(readings: seq<Reading>, outward: bool)
    requires |readings| > 1
    requires forall i :: 0 < i < |readings| ==> Usable(readings[i - 1], readings[i])
    ensures var last := readings[|readings| - 1];
      0.0 <= Bits(readings[0], last, outward) - Volume(readings, outward) < last.at - readings[0].at
  {
    hide Carried, Bits;
    var o, c, rest := readings[0], readings[1], readings[1..];
    assert Usable(o, c);
    CarriedIsTight(o, c, outward);
    if |rest| > 1 {
      forall i | 0 < i < |rest| ensures Usable(rest[i - 1], rest[i]) {
        assert rest[i - 1] == readings[i] && rest[i] == readings[i + 1];
      }
      VolumeIsTight(rest, outward);
      BitsAdd(o, c, rest[|rest| - 1], outward);
      assert rest[|rest| - 1] == readings[|readings| - 1];
    } else {
      assert readings[|readings| - 1] == c;
    }
  }

  // ---- ... over the polls ----

  datatype Poll = Poll(cur: map<string, (int, int)>, now: real)

  /** The readings of one port that the polls bring, skipping the polls it is missing from. */
  function ReadingsOf(polls: seq<Poll>, port: string): seq<Reading> {
    if polls == [] then [] else
    (if port in polls[0].cur then [ReadingIn(polls[0], port)] else []) + ReadingsOf(polls[1..], port)
  }

  function ReadingIn(poll: Poll, port: string): Reading
    requires port in poll.cur
  {
    Reading(poll.now, poll.cur[port].0, poll.cur[port].1)
  }

  function ReadingBefore(prev: map<string, Reading>, port: string): Option<Reading> {
    if port in prev then Some(prev[port]) else None
  }

  /** The bits that one poll's recorded rate of the port stands for. */
  function CarriedBy(prev: map<string, Reading>, poll: Poll, port: string, outward: bool): real {
    var bps := Rates(prev, poll.cur, poll.now);
    if port in bps then (if outward then bps[port].1 else bps[port].0) as real * (poll.now - prev[port].at) else 0.0
  }

  function CarriedInRun(prev: map<string, Reading>, polls: seq<Poll>, port: string, outward: bool): real
    decreases |polls|
  {
    if polls == [] then 0.0 else
    CarriedBy(prev, polls[0], port, outward) +
      CarriedInRun(Latest(prev, polls[0].cur, polls[0].now), polls[1..], port, outward)
  }

  function VolumeFrom(o: Option<Reading>, readings: seq<Reading>, outward: bool): real
    decreases |readings|
  {
    if readings == [] then 0.0 else
    (if o.Some? && Usable(o.value, readings[0]) then Carried(o.value, readings[0], outward) else 0.0) +
      VolumeFrom(Some(readings[0]), readings[1..], outward)
  }

  lemma {:induction false} VolumeFromIsVolume(readings: seq<Reading>, outward: bool)
    ensures VolumeFrom(None, readings, outward) == Volume(readings, outward)
    ensures readings != [] ==> VolumeFrom(Some(readings[0]), readings[1..], outward) == Volume(readings, outward)
  {
    hide Carried;
    if |readings| > 1 { VolumeFromIsVolume(readings[1..], outward); }
  }

  lemma OneTrafficPoll(prev: map<string, Reading>, poll: Poll, port: string, outward: bool)
    ensures CarriedBy(prev, poll, port, outward) ==
      if port in poll.cur && port in prev && Usable(prev[port], ReadingIn(poll, port))
      then Carried(prev[port], ReadingIn(poll, port), outward) else 0.0
    ensures ReadingBefore(Latest(prev, poll.cur, poll.now), port) ==
      if port in poll.cur then Some(ReadingIn(poll, port)) else ReadingBefore(prev, port)
  {
    hide Rate;
  }

  lemma ReadingsFirst(polls: seq<Poll>, port: string)
    requires polls != []
    ensures if port in polls[0].cur
            then ReadingsOf(polls, port) != [] && ReadingsOf(polls, port)[0] == ReadingIn(polls[0], port)
                 && ReadingsOf(polls, port)[1..] == ReadingsOf(polls[1..], port)
            else ReadingsOf(polls, port) == ReadingsOf(polls[1..], port)
  {
    hide ReadingIn;
  }

  lemma {:induction false} RunIsVolume(prev: map<string, Reading>, polls: seq<Poll>, port: string, outward: bool)
    ensures CarriedInRun(prev, polls, port, outward) == VolumeFrom(ReadingBefore(prev, port), ReadingsOf(polls, port), outward)
    decreases |polls|
  {
    if polls != [] {
      hide CarriedBy, Latest, Carried, ReadingBefore;
      var next := Latest(prev, polls[0].cur, polls[0].now);
      RunIsVolume(next, polls[1..], port, outward);
      OneTrafficPoll(prev, polls[0], port, outward);
      ReadingsFirst(polls, port);
      BeforeIs(prev, port);
    }
  }

  lemma BeforeIs(prev: map<string, Reading>, port: string)
    ensures ReadingBefore(prev, port) == if port in prev then Some(prev[port]) else None
  {
  }

  /** Over a run of polls in which neither counter of the port drops between sightings, and whatever polls it
      misses, the recorded rates give its traffic to within one bit for each second of the span. */
  lemma TrafficIsTight(polls: seq<Poll>, port: string, outward: bool)
    requires |ReadingsOf(polls, port)| > 1
    requires
      var r := ReadingsOf(polls, port);
      forall i :: 0 < i < |r| ==> Usable(r[i - 1], r[i])
    ensures
      var r := ReadingsOf(polls, port);
      0.0 <= Bits(r[0], r[|r| - 1], outward) - CarriedInRun(map[], polls, port, outward) < r[|r| - 1].at - r[0].at
  {
    hide ReadingsOf, CarriedInRun, VolumeFrom, Volume, Bits;
    var r := ReadingsOf(polls, port);
    RunIsVolume(map[], polls, port, outward);
    VolumeFromIsVolume(r, outward);
    VolumeIsTight(r, outward);
  }

  /** A port gets a rate exactly when it has been seen before, time has passed since, and neither counter has dropped;
      it is remembered with what it showed either way. */
  lemma RateGivenIff(prev: map<string, Reading>, cur: map<string, (int, int)>, now: real, port: string)
    ensures port in Rates(prev, cur, now) <==>
      && port in cur && port in prev && now > prev[port].at
      && cur[port].0 >= prev[port].input && cur[port].1 >= prev[port].output
    ensures port in cur ==> port in Latest(prev, cur, now) && Latest(prev, cur, now)[port] == Reading(now, cur[port].0, cur[port].1)
    ensures port !in cur ==> (port in Latest(prev, cur, now) <==> port in prev)
  {
    hide RatesOf;
  }
}

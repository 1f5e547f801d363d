/** The alarm mailer of core/notifier.py: a bounded queue, the batch taken from it, and the flush that mails,
    keeps or trims that batch. Producers and the loop interleave at the queue operations. */
module Notifier {
  import opened Wrappers

  datatype Event = Event(severity: string, text: string)

  const QUEUE_MAX: int := 1000

  const PENDING_MAX: int := 500

  const FLUSH_SECONDS: int := 60

  const DIGEST_MAX: int := 50

  // ---- The operations ----

  /** The shared queue and drop count; the loop's batch and the time of its last flush. */
  datatype Core = Core(queue: seq<Event>, dropped: nat, pending: seq<Event>, lastFlush: int)

  function Offered(c: Core, e: Event): Core {
    if |c.queue| < QUEUE_MAX then c.(queue := c.queue + [e]) else c.(dropped := c.dropped + 1)
  }

  function Taken(c: Core): Core {
    if c.queue == [] then c else c.(queue := c.queue[1..], pending := c.pending + [c.queue[0]])
  }

  /** `"info"` lets everything through, any other setting only warnings and worse. */
  predicate SeverityOk(e: Event, minSev: string) {
    minSev == "info" || e.severity == "warning" || e.severity == "critical"
  }

  function Wanted(events: seq<Event>, minSev: string): seq<Event> {
    if events == [] then [] else
    Wanted(events[..|events| - 1], minSev) +
      if SeverityOk(events[|events| - 1], minSev) then [events[|events| - 1]] else []
  }

  datatype Settings = Settings(enabled: bool, minSev: string)

  predicate IsDue(c: Core, now: int) { c.pending != [] && now - c.lastFlush >= FLUSH_SECONDS }

  /** What is handed to the mail server: nothing when the settings cannot be read, mail is off, or no event is
      severe enough. */
  function Letter(pending: seq<Event>, settings: Option<Settings>): seq<Event> {
    if settings.Some? && settings.value.enabled then Wanted(pending, settings.value.minSev) else []
  }

  /** The text of a letter: the first fifty events; of the others only their number. */
  datatype Mail = Mail(printed: seq<Event>, counted: seq<Event>)

  function Digest(letter: seq<Event>): Mail {
    if |letter| > DIGEST_MAX then Mail(letter[..DIGEST_MAX], letter[DIGEST_MAX..]) else Mail(letter, [])
  }

  /** The batch is done with. */
  predicate Settled(pending: seq<Event>, settings: Option<Settings>, delivered: bool) {
    settings.Some? && (delivered || Letter(pending, settings) == [])
  }

  function Kept(pending: seq<Event>): (kept: seq<Event>)
    ensures |kept| <= PENDING_MAX && |kept| <= |pending|
  {
    if |pending| > PENDING_MAX then pending[|pending| - PENDING_MAX..] else pending
  }

  function Flushed(c: Core, now: int, settings: Option<Settings>, delivered: bool): Core {
    if !IsDue(c, now) then c
    else if Settled(c.pending, settings, delivered) then c.(pending := [], lastFlush := now)
    else c.(pending := Kept(c.pending), lastFlush := now)
  }

  class Mailer {
    var queue: seq<Event>
    var dropped: nat
    var pending: seq<Event>
    var lastFlush: int

    ghost function State(): Core
      reads this
    {
      Core(queue, dropped, pending, lastFlush)
    }

    constructor (now: int)
      ensures State() == Core([], 0, [], now)
    {
      queue, dropped, pending, lastFlush := [], 0, [], now;
    }

    method Notify(e: Event)
      modifies this`queue, this`dropped
      ensures State() == Offered(old(State()), e)
    {
      if |queue| < QUEUE_MAX {
        queue := queue + [e];
      } else {
        dropped := dropped + 1;
      }
    }

    /** Taking until the queue is empty. */
    method Drain()
      modifies this`queue, this`pending
      ensures State() == Drained(old(State()))
    {
      while queue != []
        invariant Drained(State()) == Drained(old(State()))
        decreases |queue|
      {
        pending, queue := pending + [queue[0]], queue[1..];
      }
    }

    method SendList(minSev: string) returns (list: seq<Event>)
      ensures list == Wanted(pending, minSev)
    {
      list := [];
      for k := 0 to |pending|
        invariant list == Wanted(pending[..k], minSev)
      {
        assert pending[..k + 1][..k] == pending[..k];
        if SeverityOk(pending[k], minSev) {
          list := list + [pending[k]];
        }
      }
      assert pending[..|pending|] == pending;
    }

    /** The mail server's answer, true for delivered, is a parameter. */
    method Flush(now: int, settings: Option<Settings>, delivered: bool) returns (letter: seq<Event>)
      modifies this`pending, this`lastFlush
      ensures State() == Flushed(old(State()), now, settings, delivered)
      ensures letter == if IsDue(old(State()), now) then Letter(old(pending), settings) else []
    {
      letter := [];
      if pending != [] && now - lastFlush >= FLUSH_SECONDS {
        var sent := false;
        if settings.Some? {
          if !settings.value.enabled {
            sent := true;
          } else {
            letter := SendList(settings.value.minSev);
            sent := letter == [] || delivered;
          }
        }
        if sent {
          pending := [];
        } else if |pending| > PENDING_MAX {
          pending := pending[|pending| - PENDING_MAX..];
        }
        lastFlush := now;
      }
    }
  }

  function Drained(c: Core): Core
    decreases |c.queue|
  {
    if c.queue == [] then c else Drained(Taken(c))
  }

  lemma {:induction false} DrainTakesAll(c: Core)
    ensures Drained(c) == c.(queue := [], pending := c.pending + c.queue)
    decreases |c.queue|
  {
    if c.queue == [] {
      assert c.pending + c.queue == c.pending;
    } else {
      DrainTakesAll(Taken(c));
      assert (c.pending + [c.queue[0]]) + c.queue[1..] == c.pending + c.queue;
    }
  }

  // ---- Runs ----

  datatype Step = Notify(event: Event) | Take | Flush(now: int, settings: Option<Settings>, delivered: bool)

  /** Why an accepted event is no longer held. */
  datatype Fate = Mailed | OnlyCounted | NotWanted | SwitchedOff | Trimmed

  datatype Gone = Gone(event: Event, fate: Fate)

  /** The program's state with its history: every event offered, those turned away, those let go of, and the
      letters that were delivered. */
  datatype World = World(core: Core, offered: seq<Event>, refused: seq<Event>, gone: seq<Gone>, letters: seq<Mail>)

  function Start(now: int): World { World(Core([], 0, [], now), [], [], [], []) }

  /** With `before` events ahead of it in the letter. */
  function FateOf(e: Event, s: Settings, before: nat): Fate {
    if !s.enabled then SwitchedOff
    else if !SeverityOk(e, s.minSev) then NotWanted
    else if before < DIGEST_MAX then Mailed else OnlyCounted
  }

  function Fates(events: seq<Event>, s: Settings): (g: seq<Gone>)
    ensures |g| == |events|
  {
    if events == [] then [] else
    var front, e := events[..|events| - 1], events[|events| - 1];
    Fates(front, s) + [Gone(e, FateOf(e, s, |Wanted(front, s.minSev)|))]
  }

  function TrimmedOf(events: seq<Event>): (g: seq<Gone>)
    ensures |g| == |events|
  {
    seq(|events|, k requires 0 <= k < |events| => Gone(events[k], Trimmed))
  }

  function After(w: World, step: Step): World {
    match step
    case Notify(e) =>
      var refused := if |w.core.queue| < QUEUE_MAX then w.refused else w.refused + [e];
      w.(core := Offered(w.core, e), offered := w.offered + [e], refused := refused)
    case Take => w.(core := Taken(w.core))
    case Flush(now, settings, delivered) =>
      var p := w.core.pending;
      var core := Flushed(w.core, now, settings, delivered);
      if !IsDue(w.core, now) then w
      else if Settled(p, settings, delivered) then
        var letter := Letter(p, settings);
        w.(core := core, gone := w.gone + Fates(p, settings.value),
           letters := if letter == [] then w.letters else w.letters + [Digest(letter)])
      else w.(core := core, gone := w.gone + TrimmedOf(p[..|p| - |Kept(p)|]))
  }

  function Run(w: World, steps: seq<Step>): World
    decreases |steps|
  {
    if steps == [] then w else Run(After(w, steps[0]), steps[1..])
  }

  function EventsOf(gone: seq<Gone>): (r: seq<Event>)
    ensures |r| == |gone|
  {
    seq(|gone|, k requires 0 <= k < |gone| => gone[k].event)
  }

  /** The events of one fate, in order. */
  function OfFate(gone: seq<Gone>, fate: Fate): seq<Event> {
    if gone == [] then [] else
    OfFate(gone[..|gone| - 1], fate) + if gone[|gone| - 1].fate == fate then [gone[|gone| - 1].event] else []
  }

  function Printed(letters: seq<Mail>): seq<Event> {
    if letters == [] then [] else Printed(letters[..|letters| - 1]) + letters[|letters| - 1].printed
  }

  function Counted(letters: seq<Mail>): seq<Event> {
    if letters == [] then [] else Counted(letters[..|letters| - 1]) + letters[|letters| - 1].counted
  }

  /** What was accepted, in order of arrival: let go of, then in the batch, then in the queue. */
  function Accepted(w: World): seq<Event> { EventsOf(w.gone) + w.core.pending + w.core.queue }

  /** Every offered event is accounted for exactly once; those mailed are the ones printed in the letters, and
      those only counted the ones the letters give the number of. */
  ghost predicate Conserved(w: World) {
    && multiset(w.offered) == multiset(Accepted(w)) + multiset(w.refused)
    && w.core.dropped == |w.refused|
    && |w.core.queue| <= 1000
    && OfFate(w.gone, Mailed) == Printed(w.letters)
    && OfFate(w.gone, OnlyCounted) == Counted(w.letters)
  }

  lemma EventsOfConcat(a: seq<Gone>, b: seq<Gone>)
    ensures EventsOf(a + b) == EventsOf(a) + EventsOf(b)
  {
  }

  lemma {:induction false} OfFateConcat(a: seq<Gone>, b: seq<Gone>, fate: Fate)
    ensures OfFate(a + b, fate) == OfFate(a, fate) + OfFate(b, fate)
  {
    if b == [] {
      assert a + b == a;
    } else {
      var n := |b| - 1;
      OfFateConcat(a, b[..n], fate);
      assert (a + b)[..|a + b| - 1] == a + b[..n];
    }
  }

  lemma {:induction false} LetterFates(events: seq<Event>, s: Settings)
    ensures var mail := Digest(if s.enabled then Wanted(events, s.minSev) else []);
      OfFate(Fates(events, s), Mailed) == mail.printed && OfFate(Fates(events, s), OnlyCounted) == mail.counted
  {
    if events != [] {
      hide SeverityOk;
      var n := |events| - 1;
      LetterFates(events[..n], s);
      assert Fates(events, s)[..n] == Fates(events[..n], s);
    }
  }

  lemma {:induction false} TrimmedFates(events: seq<Event>, fate: Fate)
    requires fate != Trimmed
    ensures OfFate(TrimmedOf(events), fate) == []
  {
    if events != [] {
      var n := |events| - 1;
      TrimmedFates(events[..n], fate);
      assert TrimmedOf(events)[..n] == TrimmedOf(events[..n]);
    }
  }

  /** One step accepts at the end or not at all, never reorders, and keeps the books. */
  lemma StepConserves(w: World, step: Step)
    requires Conserved(w)
    ensures Conserved(After(w, step))
    ensures Accepted(After(w, step)) ==
      Accepted(w) + if step.Notify? && |w.core.queue| < 1000 then [step.event] else []
  {
    match step {
      case Notify(e) => NotifyConserves(w, e);
      case Take => TakeConserves(w);
      case Flush(now, settings, delivered) =>
        hide After, Accepted;
        FlushConserves(w, now, settings, delivered);
    }
  }

  lemma NotifyConserves(w: World, e: Event)
    requires Conserved(w)
    ensures Conserved(After(w, Notify(e)))
    ensures Accepted(After(w, Notify(e))) == Accepted(w) + if |w.core.queue| < QUEUE_MAX then [e] else []
  {
    hide EventsOf, OfFate, Printed, Counted;
    if |w.core.queue| < QUEUE_MAX {
      assert Accepted(After(w, Notify(e))) == Accepted(w) + [e];
    }
  }

  lemma TakeConserves(w: World)
    requires Conserved(w)
    ensures Conserved(After(w, Take)) && Accepted(After(w, Take)) == Accepted(w)
  {
    hide EventsOf, OfFate, Printed, Counted;
    if w.core.queue != [] {
      assert w.core.queue == [w.core.queue[0]] + w.core.queue[1..];
    }
    assert Accepted(After(w, Take)) == Accepted(w);
  }

  lemma FlushConserves(w: World, now: int, settings: Option<Settings>, delivered: bool)
    requires Conserved(w)
    ensures var v := After(w, Flush(now, settings, delivered)); Conserved(v) && Accepted(v) == Accepted(w)
  {
    hide OfFate, Printed, Counted, Accepted, Letter, Kept, Fates, TrimmedOf, Digest;
    var p := w.core.pending;
    if IsDue(w.core, now) {
      if Settled(p, settings, delivered) {
        SettledMail(w, settings, delivered);
        FatesEvents(p, settings.value);
        Regrouped(w, After(w, Flush(now, settings, delivered)), Fates(p, settings.value), []);
      } else {
        var oldest := p[..|p| - |Kept(p)|];
        OfFateConcat(w.gone, TrimmedOf(oldest), Mailed);
        OfFateConcat(w.gone, TrimmedOf(oldest), OnlyCounted);
        TrimmedFates(oldest, Mailed);
        TrimmedFates(oldest, OnlyCounted);
        FatesOfTrimmed(oldest);
        KeptIsNewest(p);
        Regrouped(w, After(w, Flush(now, settings, delivered)), TrimmedOf(oldest), Kept(p));
      }
    }
  }

  lemma KeptIsNewest(p: seq<Event>)
    ensures p == p[..|p| - |Kept(p)|] + Kept(p)
  {
  }

  /** Letting go of the front of the batch leaves the order of acceptance as it was. */
  lemma Regrouped(w: World, v: World, more: seq<Gone>, kept: seq<Event>)
    requires v.gone == w.gone + more && w.core.pending == EventsOf(more) + kept
    requires v.core.pending == kept && v.core.queue == w.core.queue
    ensures Accepted(v) == Accepted(w)
  {
    hide EventsOf;
    EventsOfConcat(w.gone, more);
    var a, b, c, q := EventsOf(w.gone), EventsOf(more), kept, w.core.queue;
    assert (a + b) + c == a + (b + c);
  }

  lemma SettledMail(w: World, settings: Option<Settings>, delivered: bool)
    requires Settled(w.core.pending, settings, delivered) && Conserved(w)
    ensures
      var letter, gone := Letter(w.core.pending, settings), w.gone + Fates(w.core.pending, settings.value);
      var letters := if letter == [] then w.letters else w.letters + [Digest(letter)];
      OfFate(gone, Mailed) == Printed(letters) && OfFate(gone, OnlyCounted) == Counted(letters)
  {
    hide OfFate, Fates, Wanted, Accepted;
    var p, letter := w.core.pending, Letter(w.core.pending, settings);
    OfFateConcat(w.gone, Fates(p, settings.value), Mailed);
    OfFateConcat(w.gone, Fates(p, settings.value), OnlyCounted);
    LetterFates(p, settings.value);
    assert (w.letters + [Digest(letter)])[..|w.letters|] == w.letters;
  }

  lemma {:induction false} FatesEvents(events: seq<Event>, s: Settings)
    ensures EventsOf(Fates(events, s)) == events
    ensures forall g :: g in Fates(events, s) ==> g.fate != Trimmed
  {
    if events != [] {
      hide Wanted, SeverityOk;
      var n := |events| - 1;
      FatesEvents(events[..n], s);
      EventsOfConcat(Fates(events[..n], s), Fates(events, s)[n..]);
      assert Fates(events, s) == Fates(events[..n], s) + Fates(events, s)[n..];
      assert events == events[..n] + [events[n]];
    }
  }

  lemma FatesOfTrimmed(events: seq<Event>)
    ensures EventsOf(TrimmedOf(events)) == events
  {
  }

  /** However offers, takes and flushes interleave: an offered event is turned away at the full queue, printed
      in one letter, only counted in one, below the set severity, dropped while mail is off, trimmed after a
      failed flush, or still held; it never leaves this count or enters it twice, and acceptance order is
      kept. */
  lemma ConservedFromStart(now: int, steps: seq<Step>)
    ensures Conserved(Run(Start(now), steps))
  {
    hide Run, Conserved;
    StartConserved(now);
    ConservedAlways(Start(now), steps);
  }

  lemma {:induction false} ConservedAlways(w: World, steps: seq<Step>)
    requires Conserved(w)
    ensures Conserved(Run(w, steps))
    ensures Accepted(w) <= Accepted(Run(w, steps))
    decreases |steps|
  {
    if steps != [] {
      hide Conserved, Accepted, After;
      StepConserves(w, steps[0]);
      ConservedAlways(After(w, steps[0]), steps[1..]);
    }
  }

  lemma StartConserved(now: int)
    ensures Conserved(Start(now))
  {
    assert EventsOf([]) == [];
  }

  predicate FailedFull(w: World, step: Step) {
    && step.Flush? && IsDue(w.core, step.now)
    && !Settled(w.core.pending, step.settings, step.delivered) && |w.core.pending| > 500
  }

  /** Trimming is the last resort: exactly a flush that fails with more than 500 events held trims, and it
      leaves exactly the newest 500. */
  lemma TrimOnlyIff(w: World, step: Step)
    ensures w.gone <= After(w, step).gone
    ensures (exists g :: g in After(w, step).gone[|w.gone|..] && g.fate == Trimmed) <==> FailedFull(w, step)
    ensures FailedFull(w, step) ==> After(w, step).core.pending == w.core.pending[|w.core.pending| - 500..]
  {
    hide Taken, Offered, Wanted;
    var more := After(w, step).gone[|w.gone|..];
    if step.Flush? && IsDue(w.core, step.now) {
      var p := w.core.pending;
      if Settled(p, step.settings, step.delivered) {
        assert more == Fates(p, step.settings.value);
        FatesEvents(p, step.settings.value);
      } else {
        var trimmed := TrimmedOf(p[..|p| - |Kept(p)|]);
        assert more == trimmed;
        if |p| > PENDING_MAX { assert trimmed[0] in more && trimmed[0].fate == Trimmed; }
      }
    } else {
      assert more == [];
    }
  }

  // ---- What is mailed ----

  /** Worth a letter under the setting: everything under "info", else warnings and critical events. */
  predicate Severe(e: Event, minSev: string) { minSev == "info" || e.severity in {"warning", "critical"} }

  /** The list consists of the events at these increasing positions. */
  ghost predicate PickedAt(ix: seq<nat>, events: seq<Event>, list: seq<Event>) {
    && |ix| == |list| && (forall k :: 0 <= k < |ix| ==> ix[k] < |events| && list[k] == events[ix[k]])
    && forall j, k :: 0 <= j < k < |ix| ==> ix[j] < ix[k]
  }

  lemma PickLast(ix: seq<nat>, events: seq<Event>, list: seq<Event>)
    requires events != [] && PickedAt(ix, events[..|events| - 1], list)
    ensures PickedAt(ix, events, list) && PickedAt(ix + [|events| - 1], events, list + [events[|events| - 1]])
  {
  }

  /** These positions, and no others, are those of events worth a letter. */
  ghost predicate AllSevere(ix: seq<nat>, events: seq<Event>, minSev: string) {
    forall i :: 0 <= i < |events| ==> (i in ix <==> Severe(events[i], minSev))
  }

  lemma SevereLast(ix: seq<nat>, events: seq<Event>, minSev: string)
    requires events != [] && AllSevere(ix, events[..|events| - 1], minSev) && |events| - 1 !in ix
    ensures AllSevere(if Severe(events[|events| - 1], minSev) then ix + [|events| - 1] else ix, events, minSev)
  {
    hide Severe;
    var n := |events| - 1;
    assert n in ix + [n] && forall i :: i in ix + [n] <==> i in ix || i == n;
    forall i | 0 <= i < n ensures i in ix <==> Severe(events[i], minSev) {
      assert events[..n][i] == events[i];
    }
  }

  lemma WantedLast(events: seq<Event>, minSev: string)
    requires events != []
    ensures
      var front, last := Wanted(events[..|events| - 1], minSev), events[|events| - 1];
      Wanted(events, minSev) == if Severe(last, minSev) then front + [last] else front
  {
    assert Wanted(events[..|events| - 1], minSev) + [] == Wanted(events[..|events| - 1], minSev);
  }

  /** A letter holds exactly the events worth one, in order. */
  lemma {:induction false} WantedAt(events: seq<Event>, minSev: string) returns (ix: seq<nat>)
    ensures PickedAt(ix, events, Wanted(events, minSev)) && AllSevere(ix, events, minSev)
  {
    ix := [];
    if events != [] {
      hide PickedAt, AllSevere, Wanted, Severe;
      var n := |events| - 1;
      var before := WantedAt(events[..n], minSev);
      PickLast(before, events, Wanted(events[..n], minSev));
      NoLater(before, events[..n], Wanted(events[..n], minSev));
      SevereLast(before, events, minSev);
      WantedLast(events, minSev);
      ix := if Severe(events[n], minSev) then before + [n] else before;
    }
  }

  lemma NoLater(ix: seq<nat>, events: seq<Event>, list: seq<Event>)
    requires PickedAt(ix, events, list)
    ensures |events| !in ix
  {
  }

  /** The whole effect of a flush: nothing within a minute of the last or without a batch; the batch is kept, or its
      newest 500, when the settings cannot be read, or the mail server does not take a letter that is due; else it
      is done with. */
  lemma FlushOutcome(c: Core, now: int, settings: Option<Settings>, delivered: bool)
    ensures
      var z := Flushed(c, now, settings, delivered);
      var due := c.pending != [] && now - c.lastFlush >= 60;
      var failed := settings.None? || (settings.value.enabled && !delivered &&
        exists e :: e in c.pending && Severe(e, settings.value.minSev));
      && z.queue == c.queue && z.dropped == c.dropped && z.lastFlush == (if due then now else c.lastFlush)
      && z.pending ==
           if !due then c.pending
           else if !failed then []
           else if |c.pending| <= 500 then c.pending else c.pending[|c.pending| - 500..]
  {
    hide Wanted, Severe;
    if settings.Some? { NothingWanted(c.pending, settings.value.minSev); }
  }

  lemma NothingWanted(events: seq<Event>, minSev: string)
    ensures Wanted(events, minSev) != [] <==> exists e :: e in events && Severe(e, minSev)
  {
    hide Wanted, Severe;
    var ix := WantedAt(events, minSev);
    if e :| e in events && Severe(e, minSev) {
      var i :| 0 <= i < |events| && events[i] == e;
      assert i in ix;
    }
    if ix != [] {
      assert ix[0] in ix && Severe(events[ix[0]], minSev);
    }
  }

  /** A letter prints its first fifty events and counts the others. */
  lemma DigestIs(letter: seq<Event>)
    ensures var mail := Digest(letter);
      mail.printed + mail.counted == letter && |mail.printed| == if |letter| <= 50 then |letter| else 50
  {
  }
}

/** The election of the one writing server: core/instance_lock.py and the promotion watch of app.py.

    Any number of instances share a data folder. The byte lock on its lock file is an atomic resource that
    the operating system frees when its holder dies. */
module Election {
  import opened Wrappers

  // ---- The lock module ----

  /** `acquire`: whether it reports success, who holds the byte lock afterwards, and whether this instance
      keeps a handle on it. */
  function AcquireEffect(holder: Option<nat>, pid: nat, canOpen: bool, allowUnlocked: bool): (bool, Option<nat>, bool) {
    if !canOpen then (allowUnlocked, holder, false)
    else if holder.None? then (true, Some(pid), true)
    else (false, holder, false)
  }

  class OsLock {
    var holder: Option<nat>

    constructor ()
      ensures holder == None
    {
      holder := None;
    }
  }

  class InstanceLock {
    const pid: nat
    var fh: bool

    constructor (pid: nat)
      ensures this.pid == pid && !fh
    {
      this.pid, fh := pid, false;
    }

    /** The handle is kept exactly while this instance holds the byte lock. */
    ghost predicate Valid(os: OsLock)
      reads this, os
    {
      fh <==> os.holder == Some(pid)
    }

    method Acquire(os: OsLock, canOpen: bool, allowUnlocked: bool) returns (acquired: bool)
      requires Valid(os) && !fh
      modifies this`fh, os
      ensures Valid(os)
      ensures (acquired, os.holder, fh) == AcquireEffect(old(os.holder), pid, canOpen, allowUnlocked)
      ensures fh <==> canOpen && old(os.holder) == None
      ensures acquired <==> fh || (!canOpen && allowUnlocked)
      ensures os.holder == if fh then Some(pid) else old(os.holder)
    {
      if !canOpen {
        return allowUnlocked;
      }
      if os.holder.Some? {
        return false;
      }
      os.holder, fh := Some(pid), true;
      acquired := true;
    }

    /** Releasing twice, or without ever having held the lock, does nothing. */
    method Release(os: OsLock)
      requires Valid(os)
      modifies this`fh, os
      ensures Valid(os) && !fh
      ensures os.holder == if old(os.holder) == Some(pid) then None else old(os.holder)
    {
      var had := fh;
      fh := false;
      if had {
        os.holder := None;
      }
    }
  }

  // ---- The protocol ----

  /** Where an instance stands; `Opened` is inside the promotion, after the request gate was opened. */
  datatype Pc = Down | Serving | Watching | Acquired | Starting | Opened | Failing | Released | Exiting

  /** `gateOpen` is `not IS_READONLY` of a process that answers requests, `dbWritable` is `not db.READONLY`. */
  datatype Instance = Instance(pc: Pc, fh: bool, gateOpen: bool, dbWritable: bool)

  datatype System = System(holder: Option<nat>, procs: seq<Instance>)

  datatype Action = Start(canOpen: bool) | Poll(canOpen: bool) | AllowWrites | OpenGate | FinishPromotion
                  | PromotionFails | ReleaseLock | Restore | Stop | Crash

  const GONE: Instance := Instance(Down, false, false, false)

  function Free(holder: Option<nat>, p: nat): Option<nat> { if holder == Some(p) then None else holder }

  /** One step of instance `p`: the lock's holder and the instance afterwards; None when not enabled. */
  function StepOf(holder: Option<nat>, p: nat, i: Instance, a: Action): Option<(Option<nat>, Instance)> {
    match a
    case Start(canOpen) =>
      if i.pc != Down then None
      else
        var (acquired, holder', fh) := AcquireEffect(holder, p, canOpen, true);
        Some((holder', if acquired then Instance(Serving, fh, true, true) else Instance(Watching, false, false, false)))
    case Poll(canOpen) =>
      if i.pc != Watching then None
      else
        var (acquired, holder', fh) := AcquireEffect(holder, p, canOpen, false);
        Some((holder', if acquired then i.(pc := Acquired, fh := fh) else i))
    case AllowWrites => if i.pc == Acquired then Some((holder, i.(pc := Starting, dbWritable := true))) else None
    case OpenGate => if i.pc == Starting then Some((holder, i.(pc := Opened, gateOpen := true))) else None
    case FinishPromotion => if i.pc == Opened then Some((holder, i.(pc := Serving))) else None
    case PromotionFails =>
      if i.pc in {Acquired, Starting, Opened} then Some((holder, i.(pc := Failing))) else None
    case ReleaseLock =>
      if i.pc == Failing then Some((if i.fh then None else holder, i.(pc := Released, fh := false)))
      else if i.pc == Exiting then Some((if i.fh then None else holder, GONE))
      else None
    case Restore =>
      if i.pc == Released then Some((holder, i.(pc := Watching, gateOpen := false, dbWritable := false))) else None
    case Stop => if i.pc in {Serving, Watching} then Some((holder, i.(pc := Exiting, gateOpen := false))) else None
    case Crash => Some((Free(holder, p), GONE))
  }

  function Step(y: System, p: nat, a: Action): Option<System> {
    if p >= |y.procs| then None
    else match StepOf(y.holder, p, y.procs[p], a)
      case None => None
      case Some((holder, i)) => Some(System(holder, y.procs[p := i]))
  }

  function Init(n: nat): System { System(None, seq(n, _ => GONE)) }

  function Run(y: System, steps: seq<(nat, Action)>): Option<System> {
    if steps == [] then Some(y)
    else
      var before :- Run(y, steps[..|steps| - 1]);
      Step(before, steps[|steps| - 1].0, steps[|steps| - 1].1)
  }

  /** The handle follows the lock, and everything from a successful poll to the end of promotion holds it. */
  ghost predicate LockInvariant(y: System) {
    && (y.holder.Some? ==> y.holder.value < |y.procs|)
    && forall p :: 0 <= p < |y.procs| ==>
      && (y.procs[p].fh <==> y.holder == Some(p))
      && (y.procs[p].pc in {Acquired, Starting, Opened, Failing} ==> y.procs[p].fh)
      && (y.procs[p].pc in {Down, Watching, Released} ==> !y.procs[p].fh)
      && (y.procs[p].gateOpen ==> y.procs[p].pc in {Serving, Opened, Failing, Released})
      && (y.procs[p].dbWritable ==> y.procs[p].pc in {Serving, Starting, Opened, Failing, Released, Exiting})
  }

  lemma LockStep(y: System, p: nat, a: Action)
    requires LockInvariant(y) && Step(y, p, a).Some?
    ensures LockInvariant(Step(y, p, a).value)
  {
  }

  lemma {:induction false} LockAlways(n: nat, steps: seq<(nat, Action)>)
    requires Run(Init(n), steps).Some?
    ensures LockInvariant(Run(Init(n), steps).value)
  {
    if steps != [] {
      var init, last := steps[..|steps| - 1], steps[|steps| - 1];
      LockAlways(n, init);
      LockStep(Run(Init(n), init).value, last.0, last.1);
    }
  }

  /** The step that breaks the guarantee: a start that cannot open the lock file, or a promotion that fails
      after it has opened the gate. */
  predicate BreachStep(y: System, p: nat, a: Action) {
    a == Start(false) || (a == PromotionFails && p < |y.procs| && y.procs[p].pc == Opened)
  }

  ghost predicate Breach(y: System, steps: seq<(nat, Action)>, k: int) {
    0 <= k < |steps| && Run(y, steps[..k]).Some? && BreachStep(Run(y, steps[..k]).value, steps[k].0, steps[k].1)
  }

  ghost predicate GateHoldsLock(y: System) {
    forall p :: 0 <= p < |y.procs| && y.procs[p].gateOpen ==> y.procs[p].fh && y.procs[p].pc in {Serving, Opened}
  }

  lemma GateStep(y: System, p: nat, a: Action)
    requires LockInvariant(y) && GateHoldsLock(y) && Step(y, p, a).Some? && !BreachStep(y, p, a)
    ensures GateHoldsLock(Step(y, p, a).value)
  {
  }

  lemma {:induction false} GateAlways(y: System, steps: seq<(nat, Action)>)
    requires LockInvariant(y) && GateHoldsLock(y) && Run(y, steps).Some? && forall k :: !Breach(y, steps, k)
    ensures LockInvariant(Run(y, steps).value) && GateHoldsLock(Run(y, steps).value)
  {
    if steps != [] {
      hide LockInvariant, GateHoldsLock, StepOf;
      var init, last := steps[..|steps| - 1], steps[|steps| - 1];
      forall k ensures !Breach(y, init, k) {
        if 0 <= k < |init| {
          assert init[..k] == steps[..k];
          assert !Breach(y, steps, k);
        }
      }
      GateAlways(y, init);
      assert !Breach(y, steps, |init|);
      LockStep(Run(y, init).value, last.0, last.1);
      GateStep(Run(y, init).value, last.0, last.1);
    }
  }

  lemma NothingHeld(n: nat)
    ensures LockInvariant(Init(n)) && GateHoldsLock(Init(n)) && DatabaseHoldsLock(Init(n))
  {
  }

  /** However many instances start, poll, fail to promote, stop and crash: while there was no breach, at most
      one write gate is open, and it is the lock holder's. */
  lemma AtMostOneWriter(n: nat, steps: seq<(nat, Action)>, p: int, q: int)
    requires Run(Init(n), steps).Some? && forall k :: !Breach(Init(n), steps, k)
    requires
      var procs := Run(Init(n), steps).value.procs;
      0 <= p < |procs| && 0 <= q < |procs| && procs[p].gateOpen && procs[q].gateOpen
    ensures p == q && Run(Init(n), steps).value.holder == Some(p)
  {
    hide Breach;
    NothingHeld(n);
    GateAlways(Init(n), steps);
  }

  predicate TwoGates(y: System) {
    exists p, q :: 0 <= p < |y.procs| && 0 <= q < |y.procs| && p != q && y.procs[p].gateOpen && y.procs[q].gateOpen
  }

  /** After a breach: two gates can come to be open together, without a further breach, exactly from the states
      in which some open gate is without the lock, or its instance is on the way to give it up. */
  lemma TwoGatesIff(y: System)
    requires LockInvariant(y) && |y.procs| >= 2
    ensures (exists steps :: Run(y, steps).Some? && (forall k :: !Breach(y, steps, k)) && TwoGates(Run(y, steps).value)) <==>
      !GateHoldsLock(y)
  {
    hide Run, Breach;
    if GateHoldsLock(y) {
      forall steps | Run(y, steps).Some? && forall k :: !Breach(y, steps, k) ensures !TwoGates(Run(y, steps).value) {
        GateAlways(y, steps);
      }
    } else {
      var p :| 0 <= p < |y.procs| && y.procs[p].gateOpen && !(y.procs[p].fh && y.procs[p].pc in {Serving, Opened});
      var steps, z := OpenSecond(y, p);
      assert TwoGates(z);
    }
  }

  /** A run of `start` in which nothing is breached, extended by one step. */
  lemma Further(start: System, steps: seq<(nat, Action)>, y: System, p: nat, a: Action)
    returns (steps': seq<(nat, Action)>, y': System)
    requires Run(start, steps) == Some(y) && (forall k :: !Breach(start, steps, k))
    requires Step(y, p, a).Some? && !BreachStep(y, p, a) && LockInvariant(y)
    ensures Run(start, steps') == Some(y') && (forall k :: !Breach(start, steps', k))
    ensures y' == Step(y, p, a).value && LockInvariant(y') && steps' == steps + [(p, a)]
  {
    hide LockInvariant, StepOf;
    steps', y' := steps + [(p, a)], Step(y, p, a).value;
    assert steps'[..|steps|] == steps;
    LockStep(y, p, a);
    forall k ensures !Breach(start, steps', k) {
      if 0 <= k < |steps| {
        assert steps'[..k] == steps[..k] && steps'[k] == steps[k];
        assert !Breach(start, steps, k);
      }
    }
  }

  lemma NoSteps(y: System)
    ensures Run(y, []) == Some(y) && forall k :: !Breach(y, [], k)
  {
  }

  /** An instance whose gate is open without a lock to keep: it lets go of the lock if it is about to; another
      instance, the holder if there is one, crashes and starts again, and finds the lock free. */
  lemma OpenSecond(y: System, p: nat) returns (steps: seq<(nat, Action)>, z: System)
    requires LockInvariant(y) && |y.procs| >= 2 && p < |y.procs| && y.procs[p].gateOpen
    requires !(y.procs[p].fh && y.procs[p].pc in {Serving, Opened})
    ensures Run(y, steps) == Some(z) && (forall k :: !Breach(y, steps, k)) && TwoGates(z)
  {
    hide Run, Breach;
    NoSteps(y);
    steps, z := [], y;
    if y.procs[p].fh {
      assert y.procs[p].pc == Failing;
      steps, z := Further(y, steps, z, p, ReleaseLock);
    }
    var q := if z.holder.Some? then z.holder.value else if p == 0 then 1 else 0;
    assert z.procs[p].gateOpen && q != p;
    steps, z := Further(y, steps, z, q, Crash);
    steps, z := Further(y, steps, z, q, Start(true));
    assert z.procs[p].gateOpen && z.procs[q].gateOpen;
  }

  // ---- The database flag ----

  /** Who may write to the database holds the lock. */
  ghost predicate DatabaseHoldsLock(y: System) {
    forall p :: 0 <= p < |y.procs| && y.procs[p].dbWritable ==> y.procs[p].fh
  }

  /** For the flag the order of the failure path matters as well: the lock is released while the flag is set. */
  predicate FlagBreachStep(y: System, p: nat, a: Action) {
    a == Start(false) || (a == ReleaseLock && p < |y.procs| && y.procs[p].pc == Failing && y.procs[p].dbWritable)
  }

  ghost predicate FlagBreach(y: System, steps: seq<(nat, Action)>, k: int) {
    0 <= k < |steps| && Run(y, steps[..k]).Some? && FlagBreachStep(Run(y, steps[..k]).value, steps[k].0, steps[k].1)
  }

  lemma FlagStep(y: System, p: nat, a: Action)
    requires LockInvariant(y) && DatabaseHoldsLock(y) && Step(y, p, a).Some? && !FlagBreachStep(y, p, a)
    ensures DatabaseHoldsLock(Step(y, p, a).value)
  {
  }

  lemma {:induction false} FlagAlways(y: System, steps: seq<(nat, Action)>)
    requires LockInvariant(y) && DatabaseHoldsLock(y) && Run(y, steps).Some? && forall k :: !FlagBreach(y, steps, k)
    ensures LockInvariant(Run(y, steps).value) && DatabaseHoldsLock(Run(y, steps).value)
  {
    if steps != [] {
      hide LockInvariant, DatabaseHoldsLock, StepOf;
      var init, last := steps[..|steps| - 1], steps[|steps| - 1];
      forall k ensures !FlagBreach(y, init, k) {
        if 0 <= k < |init| {
          assert init[..k] == steps[..k];
          assert !FlagBreach(y, steps, k);
        }
      }
      FlagAlways(y, init);
      assert !FlagBreach(y, steps, |init|);
      LockStep(Run(y, init).value, last.0, last.1);
      FlagStep(Run(y, init).value, last.0, last.1);
    }
  }

  predicate TwoWritable(y: System) {
    exists p, q :: 0 <= p < |y.procs| && 0 <= q < |y.procs| && p != q && y.procs[p].dbWritable && y.procs[q].dbWritable
  }

  /** Two databases can come to be writable together, without a further step of that kind, exactly from the
      states in which some instance has the flag without the lock. Such an instance has released the lock of a
      failed promotion, or was started without the lock file. */
  lemma TwoWritableIff(y: System)
    requires LockInvariant(y) && |y.procs| >= 2
    ensures (exists steps :: Run(y, steps).Some? && (forall k :: !FlagBreach(y, steps, k)) && TwoWritable(Run(y, steps).value))
      <==> !DatabaseHoldsLock(y)
    ensures !DatabaseHoldsLock(y) <==>
      exists p :: 0 <= p < |y.procs| && y.procs[p].dbWritable && !y.procs[p].fh && y.procs[p].pc in {Released, Serving, Exiting}
  {
    hide Run, FlagBreach;
    if DatabaseHoldsLock(y) {
      forall steps | Run(y, steps).Some? && forall k :: !FlagBreach(y, steps, k) ensures !TwoWritable(Run(y, steps).value) {
        FlagAlways(y, steps);
      }
    } else {
      var p :| 0 <= p < |y.procs| && y.procs[p].dbWritable && !y.procs[p].fh;
      var steps, z := SetSecond(y, p);
      assert TwoWritable(z);
    }
  }

  lemma SetSecond(y: System, p: nat) returns (steps: seq<(nat, Action)>, z: System)
    requires LockInvariant(y) && |y.procs| >= 2 && p < |y.procs| && y.procs[p].dbWritable && !y.procs[p].fh
    ensures Run(y, steps) == Some(z) && (forall k :: !FlagBreach(y, steps, k)) && TwoWritable(z)
  {
    hide Run, FlagBreach, Breach;
    NoSteps(y);
    var q := if y.holder.Some? then y.holder.value else if p == 0 then 1 else 0;
    steps, z := Further(y, [], y, q, Crash);
    steps, z := Further(y, steps, z, q, Start(true));
    assert z.procs[p].dbWritable && z.procs[q].dbWritable;
    CrashAndStart(y, steps, q);
  }

  lemma CrashAndStart(y: System, steps: seq<(nat, Action)>, q: nat)
    requires steps == [] + [(q, Crash)] + [(q, Start(true))]
    ensures forall k :: !FlagBreach(y, steps, k)
  {
    hide Run;
  }

  /** Breach or no breach, nobody is promoted without holding the lock; an instance that cannot open the
      lock file goes on watching. */
  lemma PromotionNeedsLock(n: nat, steps: seq<(nat, Action)>, p: int)
    requires Run(Init(n), steps).Some? && 0 <= p < |Run(Init(n), steps).value.procs|
    ensures
      var y := Run(Init(n), steps).value;
      && (y.procs[p].pc in {Acquired, Starting, Opened} ==> y.holder == Some(p))
      && (y.procs[p].pc == Watching ==> Step(y, p, Poll(false)) == Some(y))
  {
    LockAlways(n, steps);
    var y := Run(Init(n), steps).value;
    assert y.procs[p := y.procs[p]] == y.procs;
  }

  /** After the holder is gone, a watching instance that can open the lock file is promoted: polling succeeds
      and three more steps of its own open its gate. */
  lemma FailoverCompletes(y: System, p: nat)
    requires LockInvariant(y) && p < |y.procs| && y.procs[p].pc == Watching && y.holder == None
    ensures exists y1, y2, y3, y4 ::
      && Step(y, p, Poll(true)) == Some(y1) && Step(y1, p, AllowWrites) == Some(y2)
      && Step(y2, p, OpenGate) == Some(y3) && Step(y3, p, FinishPromotion) == Some(y4)
      && y4.holder == Some(p) && y4.procs[p] == Instance(Serving, true, true, true)
  {
    var y1 := Step(y, p, Poll(true)).value;
    var y2 := Step(y1, p, AllowWrites).value;
    var y3 := Step(y2, p, OpenGate).value;
    var y4 := Step(y3, p, FinishPromotion).value;
    assert y4.procs[p] == Instance(Serving, true, true, true);
  }

  /** A start serves, with the lock, when it finds the lock free; it watches, read-only, when another instance has
      it; and it serves without the lock when it cannot open the file. */
  lemma StartOutcomes(y: System, p: nat, canOpen: bool)
    requires LockInvariant(y) && p < |y.procs| && y.procs[p].pc == Down
    ensures Step(y, p, Start(canOpen)).Some?
    ensures
      var z := Step(y, p, Start(canOpen)).value;
      && (z.procs[p].pc == Serving <==> !canOpen || y.holder == None)
      && (z.procs[p].pc == Watching <==> canOpen && y.holder.Some?)
      && (z.procs[p].gateOpen <==> z.procs[p].pc == Serving) && (z.procs[p].dbWritable <==> z.procs[p].pc == Serving)
      && z.holder == if canOpen && y.holder == None then Some(p) else y.holder
  {
  }

  /** A failed promotion leaves no trace: two further steps of its own and the instance watches as before, read-only,
      with the lock free for anybody. */
  lemma FailureIsUndone(y: System, p: nat)
    requires LockInvariant(y) && p < |y.procs| && y.procs[p].pc in {Acquired, Starting, Opened}
    ensures exists y1, y2, y3 ::
      && Step(y, p, PromotionFails) == Some(y1) && Step(y1, p, ReleaseLock) == Some(y2) && Step(y2, p, Restore) == Some(y3)
      && y3.holder == None && y3.procs == y.procs[p := Instance(Watching, false, false, false)]
  {
    var y1 := Step(y, p, PromotionFails).value;
    var y2 := Step(y1, p, ReleaseLock).value;
    var y3 := Step(y2, p, Restore).value;
    assert y3.procs == y.procs[p := Instance(Watching, false, false, false)];
  }

  /** A stopped instance closes its gate at once, and frees the lock if it has it; so does a crash. */
  lemma StopFrees(y: System, p: nat)
    requires LockInvariant(y) && p < |y.procs|
    ensures Step(y, p, Crash) == Some(System(if y.holder == Some(p) then None else y.holder, y.procs[p := GONE]))
    ensures y.procs[p].pc in {Serving, Watching} ==>
      exists y1 ::
        && Step(y, p, Stop) == Some(y1) && y1.holder == y.holder && !y1.procs[p].gateOpen
        && Step(y1, p, ReleaseLock) == Step(y, p, Crash)
  {
    if y.procs[p].pc in {Serving, Watching} {
      var y1 := Step(y, p, Stop).value;
      assert y1.procs[p := GONE] == y.procs[p := GONE];
      assert Step(y1, p, ReleaseLock) == Step(y, p, Crash);
    }
  }

  /** Nobody can take the lock from its holder, or touch another instance. */
  lemma LockNotTaken(y: System, p: nat, a: Action, q: nat)
    requires LockInvariant(y) && Step(y, p, a).Some? && q < |y.procs| && q != p
    ensures
      var z := Step(y, p, a).value;
      z.procs[q] == y.procs[q] && (y.holder == Some(q) <==> z.holder == Some(q))
  {
  }

  // ---- What can go wrong ----

  lemma Extend(n: nat, steps: seq<(nat, Action)>, y: System, p: nat, a: Action, next: System)
    returns (steps': seq<(nat, Action)>, y': System)
    requires Run(Init(n), steps) == Some(y) && p < |y.procs|
    requires StepOf(y.holder, p, y.procs[p], a).Some? && StepOf(y.holder, p, y.procs[p], a).value.0 == next.holder
    requires y.procs[p := StepOf(y.holder, p, y.procs[p], a).value.1] == next.procs
    ensures Run(Init(n), steps') == Some(y') && y' == next && steps' == steps + [(p, a)]
  {
    steps', y' := steps + [(p, a)], next;
    assert steps'[..|steps|] == steps;
  }

  lemma Begin()
    ensures Run(Init(2), []) == Some(Init(2))
  {
  }

  /** Instance 0 serves and crashes; instance 1, which was watching, takes the lock and stands in promotion
      with its database writable. */
  lemma Takeover() returns (steps: seq<(nat, Action)>, y: System)
    ensures Run(Init(2), steps) == Some(y) && y == System(Some(1), [GONE, Instance(Starting, true, false, true)])
  {
    hide Run;
    Begin();
    var serving, watching := Instance(Serving, true, true, true), Instance(Watching, false, false, false);
    var s1, y1 := Extend(2, [], Init(2), 0, Start(true), System(Some(0), [serving, GONE]));
    var s2, y2 := Extend(2, s1, y1, 1, Start(true), System(Some(0), [serving, watching]));
    var s3, y3 := Extend(2, s2, y2, 0, Crash, System(None, [GONE, watching]));
    var s4, y4 := Extend(2, s3, y3, 1, Poll(true), System(Some(1), [GONE, watching.(pc := Acquired, fh := true)]));
    steps, y := Extend(2, s4, y4, 1, AllowWrites, System(Some(1), [GONE, Instance(Starting, true, false, true)]));
  }

  /** On a failed promotion the lock goes before the database flag: for a moment two instances have writable
      databases, though only one has an open gate. */
  lemma DatabaseFlagsOverlap() returns (steps: seq<(nat, Action)>)
    ensures Run(Init(2), steps).Some?
    ensures Run(Init(2), steps).value.procs ==
      [Instance(Serving, true, true, true), Instance(Released, false, false, true)]
  {
    hide Run;
    var s0, y0 := Takeover();
    var s1, y1 := Extend(2, s0, y0, 1, PromotionFails, System(Some(1), [GONE, y0.procs[1].(pc := Failing)]));
    var s2, y2 := Extend(2, s1, y1, 1, ReleaseLock, System(None, [GONE, Instance(Released, false, false, true)]));
    var s3, y3 := Extend(2, s2, y2, 0, Start(true), System(Some(0), [Instance(Serving, true, true, true), y2.procs[1]]));
    steps := s3;
  }

  /** A start that cannot open the lock file opens its gate beside the holder's. */
  lemma UnlockedStartOpensTwoGates() returns (steps: seq<(nat, Action)>)
    ensures Run(Init(2), steps).Some?
    ensures Run(Init(2), steps).value == System(Some(0), [Instance(Serving, true, true, true), Instance(Serving, false, true, true)])
  {
    hide Run;
    Begin();
    var locked, unlocked := Instance(Serving, true, true, true), Instance(Serving, false, true, true);
    var s1, y1 := Extend(2, [], Init(2), 0, Start(true), System(Some(0), [locked, GONE]));
    var s2, y2 := Extend(2, s1, y1, 1, Start(false), System(Some(0), [locked, unlocked]));
    steps := s2;
  }

  /** If the promotion fails after opening the gate (its last statements log and print), the lock is released
      while the gate is still open, and a second instance can open its own. */
  lemma LateFailureOpensTwoGates() returns (steps: seq<(nat, Action)>)
    ensures Run(Init(2), steps).Some?
    ensures Run(Init(2), steps).value.procs ==
      [Instance(Serving, true, true, true), Instance(Released, false, true, true)]
  {
    hide Run;
    var s0, y0 := Takeover();
    var s1, y1 := Extend(2, s0, y0, 1, OpenGate, System(Some(1), [GONE, Instance(Opened, true, true, true)]));
    var s2, y2 := Extend(2, s1, y1, 1, PromotionFails, System(Some(1), [GONE, Instance(Failing, true, true, true)]));
    var s3, y3 := Extend(2, s2, y2, 1, ReleaseLock, System(None, [GONE, Instance(Released, false, true, true)]));
    var s4, y4 := Extend(2, s3, y3, 0, Start(true), System(Some(0), [Instance(Serving, true, true, true), y3.procs[1]]));
    steps := s4;
  }
}

/** The collection queue of core/collector.py with the credential store of core/credentials.py.

    First the shared state as the class the request, worker and cancel threads call into; then every
    interleaving of any number of threads, where each lock-protected block, queue operation and store
    operation is one atomic step. */
module CollectQueue {
  import opened Wrappers

  type Id = int

  /** `serial` tells submissions of the same switch apart; the credential a submission stores is
      identified by it. The queue payload itself carries no credential. */
  datatype Job = Job(id: Id, serial: nat)

  datatype Shared = Shared(collecting: set<Id>, queue: seq<Job>, session: map<Id, nat>)

  const CAPACITY: nat := 1000

  // ---- The atomic blocks as functions of the shared state ----

  function Mark(s: Shared, id: Id): Shared { s.(collecting := s.collecting + {id}) }

  function Unmark(s: Shared, id: Id): Shared { s.(collecting := s.collecting - {id}) }

  function Save(s: Shared, job: Job): Shared { s.(session := s.session[job.id := job.serial]) }

  function Clear(s: Shared, id: Id): Shared { s.(session := s.session - {id}) }

  function Put(s: Shared, job: Job): Shared { s.(queue := s.queue + [job]) }

  function Take(s: Shared): Shared
    requires s.queue != []
  {
    s.(queue := s.queue[1..])
  }

  function Load(s: Shared, id: Id): Option<nat> { if id in s.session then Some(s.session[id]) else None }

  function Ids(queue: seq<Job>): set<Id> { set job | job in queue :: job.id }

  datatype SubmitResult = Queued | InProgress | QueueFull | EnqueueError

  /** What becomes of a submission, and of the shared state, when nobody interferes; `fault` is an exception
      before the job is queued. */
  function Submitted(s: Shared, job: Job, withCredentials: bool, fault: bool): (SubmitResult, Shared) {
    if job.id in s.collecting then (InProgress, s)
    else if fault then (EnqueueError, Clear(s, job.id))
    else if |s.queue| >= CAPACITY then (QueueFull, Clear(s, job.id))
    else
      var marked := Mark(s, job.id);
      (Queued, Put(if withCredentials then Save(marked, job) else marked, job))
  }

  /** What the answers tell of the two states: the job is at the end of the queue, marked and with its credential;
      or its switch was marked already and nothing has changed; or it is neither marked nor stored, because of an
      exception or because a thousand jobs are queued. */
  lemma AnswersTell(s: Shared, job: Job, withCredentials: bool, fault: bool)
    ensures
      var (r, s') := Submitted(s, job, withCredentials, fault);
      && (r == Queued <==> s'.queue == s.queue + [job]) && (r != Queued ==> s'.queue == s.queue)
      && (r == Queued <==> job.id in s'.collecting && job.id !in s.collecting)
      && (r == Queued ==>
            && s'.collecting == s.collecting + {job.id}
            && s'.session == if withCredentials then s.session[job.id := job.serial] else s.session)
      && (r == InProgress <==> job.id in s.collecting) && (r == InProgress ==> s' == s)
      && (r == EnqueueError <==> job.id !in s.collecting && fault)
      && (r == QueueFull <==> job.id !in s.collecting && !fault && |s.queue| >= 1000)
      && (r in {EnqueueError, QueueFull} ==> s'.collecting == s.collecting && s'.session == s.session - {job.id})
  {
    assert s.queue + [job] != s.queue by { assert |s.queue + [job]| > |s.queue|; }
  }

  /** Every queued switch is released. */
  function Emptied(s: Shared): Shared { Shared(s.collecting - Ids(s.queue), [], s.session - Ids(s.queue)) }

  /** The first queued job is dealt with. */
  function Worked(s: Shared): Shared
    requires s.queue != []
  {
    Unmark(Clear(Take(s), s.queue[0].id), s.queue[0].id)
  }

  class Collector {
    var collecting: set<Id>
    var queue: seq<Job>
    var session: map<Id, nat>

    constructor ()
      ensures View() == Shared({}, [], map[])
    {
      collecting, queue, session := {}, [], map[];
    }

    ghost function View(): Shared
      reads this
    {
      Shared(collecting, queue, session)
    }

    /** `collect_switch` run without interruption. */
    method CollectSwitch(job: Job, withCredentials: bool, fault: bool) returns (r: SubmitResult)
      modifies this
      ensures (r, View()) == Submitted(old(View()), job, withCredentials, fault)
      ensures r == InProgress <==> job.id in old(collecting)
      ensures r == Queued <==> queue == old(queue) + [job]
      ensures r != Queued ==> queue == old(queue)
    {
      if job.id in collecting {
        return InProgress;
      }
      collecting := collecting + {job.id};
      assert collecting - {job.id} == old(collecting);
      if withCredentials {
        session := session[job.id := job.serial];
      }
      assert session - {job.id} == old(session) - {job.id};
      if fault {
        AbortEnqueue(job.id);
        return EnqueueError;
      }
      if |queue| >= CAPACITY {
        AbortEnqueue(job.id);
        return QueueFull;
      }
      queue := queue + [job];
      r := Queued;
    }

    method AbortEnqueue(id: Id)
      modifies this`collecting, this`session
      ensures collecting == old(collecting) - {id} && session == old(session) - {id} && queue == old(queue)
    {
      collecting := collecting - {id};
      session := session - {id};
    }

    /** `cancel_pending` run without interruption: every queued switch, and nothing else, is released. */
    method CancelPending() returns (cancelled: nat)
      modifies this
      ensures cancelled == |old(queue)| && View() == Emptied(old(View()))
      ensures forall id :: id in collecting <==> id in old(collecting) && forall job :: job in old(queue) ==> job.id != id
    {
      cancelled := 0;
      while queue != []
        invariant cancelled <= |old(queue)| && queue == old(queue)[cancelled..]
        invariant collecting == old(collecting) - Ids(old(queue)[..cancelled])
        invariant session == old(session) - Ids(old(queue)[..cancelled])
        decreases |queue|
      {
        var job := queue[0];
        queue := queue[1..];
        collecting := collecting - {job.id};
        session := session - {job.id};
        assert old(queue)[..cancelled + 1] == old(queue)[..cancelled] + [job];
        cancelled := cancelled + 1;
      }
      assert old(queue)[..cancelled] == old(queue);
    }

    /** `_worker_loop_once` run without interruption; `reaches` says whether the job gets as far as
        loading its credential. Whatever happens to the job, its id is released. */
    method WorkerLoopOnce(reaches: bool) returns (job: Job, loaded: Option<nat>)
      requires queue != []
      modifies this
      ensures job == old(queue)[0]
      ensures loaded == if reaches && job.id in old(session) then Some(old(session)[job.id]) else None
      ensures View() == Worked(old(View()))
      ensures queue == old(queue)[1..] && collecting == old(collecting) - {job.id} && session == old(session) - {job.id}
    {
      job := queue[0];
      queue := queue[1..];
      loaded := None;
      if reaches && job.id in session {
        loaded := Some(session[job.id]);
      }
      session := session - {job.id};
      collecting := collecting - {job.id};
    }
  }

  // ---- All interleavings ----

  /** Where a thread stands. A thread may take any role when idle: request handler, worker, canceller. */
  datatype Pc =
    | Idle
    | Marked(job: Job)
    | Saved(job: Job)
    | Aborting(job: Job)
    | AbortUnmarked(job: Job)
    | Working(job: Job)
    | Loaded(job: Job, cred: Option<nat>)
    | WorkCleared(job: Job)
    | Cancelling(job: Job)
    | CancelUnmarked(job: Job)

  datatype System = System(shared: Shared, threads: seq<Pc>)

  datatype Action = Submit(job: Job) | DoSave | SkipSave | Fault | DoPut | DoUnmark | DoClear | TakeToWork | TakeToCancel
                  | DoLoad

  /** The shared state and the thread's own position after one atomic step; None when not enabled. */
  function StepOf(s: Shared, pc: Pc, a: Action): Option<(Shared, Pc)> {
    match (a, pc)
    case (Submit(job), Idle) =>
      if job.id in s.collecting then Some((s, Idle)) else Some((Mark(s, job.id), Marked(job)))
    case (DoSave, Marked(job)) => Some((Save(s, job), Saved(job)))
    case (SkipSave, Marked(job)) => Some((s, Saved(job)))
    case (Fault, Marked(job)) => Some((s, Aborting(job)))
    case (Fault, Saved(job)) => Some((s, Aborting(job)))
    case (DoPut, Saved(job)) => if |s.queue| < CAPACITY then Some((Put(s, job), Idle)) else Some((s, Aborting(job)))
    case (DoUnmark, Aborting(job)) => Some((Unmark(s, job.id), AbortUnmarked(job)))
    case (DoUnmark, Cancelling(job)) => Some((Unmark(s, job.id), CancelUnmarked(job)))
    case (DoUnmark, WorkCleared(job)) => Some((Unmark(s, job.id), Idle))
    case (DoClear, AbortUnmarked(job)) => Some((Clear(s, job.id), Idle))
    case (DoClear, CancelUnmarked(job)) => Some((Clear(s, job.id), Idle))
    case (DoClear, Working(job)) => Some((Clear(s, job.id), WorkCleared(job)))
    case (DoClear, Loaded(job, _)) => Some((Clear(s, job.id), WorkCleared(job)))
    case (TakeToWork, Idle) => if s.queue == [] then None else Some((Take(s), Working(s.queue[0])))
    case (TakeToCancel, Idle) => if s.queue == [] then None else Some((Take(s), Cancelling(s.queue[0])))
    case (DoLoad, Working(job)) => Some((s, Loaded(job, Load(s, job.id))))
    case _ => None
  }

  function Step(y: System, t: nat, a: Action): Option<System> {
    if t >= |y.threads| then None
    else match StepOf(y.shared, y.threads[t], a)
      case None => None
      case Some((shared, pc)) => Some(System(shared, y.threads[t := pc]))
  }

  function Idles(n: nat): seq<Pc> { seq(n, _ => Idle) }

  function Init(n: nat): System { System(Shared({}, [], map[]), Idles(n)) }

  /** A run: which thread takes which step, in which order. */
  function Run(y: System, steps: seq<(nat, Action)>): Option<System> {
    if steps == [] then Some(y)
    else
      var before :- Run(y, steps[..|steps| - 1]);
      Step(before, steps[|steps| - 1].0, steps[|steps| - 1].1)
  }

  // ---- First in, first out ----

  /** The job a thread puts into the queue in a step: it had it saved and is idle afterwards. */
  function PutIn(y: System, t: nat, a: Action): seq<Job> {
    match Step(y, t, a)
    case Some(z) => if a == DoPut && y.threads[t].Saved? && z.threads[t] == Idle then [y.threads[t].job] else []
    case None => []
  }

  /** ... and the one it takes out, to collect or to cancel. */
  function TakenOut(y: System, t: nat, a: Action): seq<Job> {
    match Step(y, t, a)
    case Some(z) =>
      if a in {TakeToWork, TakeToCancel} && (z.threads[t].Working? || z.threads[t].Cancelling?) then [z.threads[t].job] else []
    case None => []
  }

  function Puts(y: System, steps: seq<(nat, Action)>): seq<Job> {
    if steps == [] then [] else
    var n := |steps| - 1;
    var before := Run(y, steps[..n]);
    Puts(y, steps[..n]) + (if before.Some? then PutIn(before.value, steps[n].0, steps[n].1) else [])
  }

  function Takes(y: System, steps: seq<(nat, Action)>): seq<Job> {
    if steps == [] then [] else
    var n := |steps| - 1;
    var before := Run(y, steps[..n]);
    Takes(y, steps[..n]) + (if before.Some? then TakenOut(before.value, steps[n].0, steps[n].1) else [])
  }

  lemma QueueStep(y: System, t: nat, a: Action)
    requires Step(y, t, a).Some?
    ensures y.shared.queue + PutIn(y, t, a) == TakenOut(y, t, a) + Step(y, t, a).value.shared.queue
  {
    var s, s' := y.shared, Step(y, t, a).value.shared;
    if a in {TakeToWork, TakeToCancel} {
      assert s.queue == [s.queue[0]] + s'.queue;
    }
  }

  /** In every run, with any number of threads: the jobs taken out, followed by those still queued, are the jobs
      queued at first, followed by those put in, in that order. */
  lemma {:induction false} FirstInFirstOut(y: System, steps: seq<(nat, Action)>)
    requires Run(y, steps).Some?
    ensures y.shared.queue + Puts(y, steps) == Takes(y, steps) + Run(y, steps).value.shared.queue
  {
    if steps != [] {
      hide Step, PutIn, TakenOut, Run;
      RunLast(y, steps);
      var n := |steps| - 1;
      var z, puts, takes := Run(y, steps[..n]).value, Puts(y, steps[..n]), Takes(y, steps[..n]);
      var put, taken := PutIn(z, steps[n].0, steps[n].1), TakenOut(z, steps[n].0, steps[n].1);
      FirstInFirstOut(y, steps[..n]);
      QueueStep(z, steps[n].0, steps[n].1);
      Regrouped(y.shared.queue, puts, put, takes, z.shared.queue, taken, Run(y, steps).value.shared.queue);
    } else {
      RunLast(y, steps);
    }
  }

  lemma RunLast(y: System, steps: seq<(nat, Action)>)
    requires Run(y, steps).Some?
    ensures if steps == [] then Run(y, steps) == Some(y)
            else
              var n := |steps| - 1;
              Run(y, steps[..n]).Some? && Run(y, steps) == Step(Run(y, steps[..n]).value, steps[n].0, steps[n].1)
  {
  }

  lemma Regrouped(a: seq<Job>, b: seq<Job>, c: seq<Job>, d: seq<Job>, e: seq<Job>, f: seq<Job>, g: seq<Job>)
    requires a + b == d + e && e + c == f + g
    ensures a + (b + c) == d + f + g
  {
    assert a + (b + c) == (a + b) + c;
    assert (d + e) + c == d + (e + c);
    assert d + (f + g) == d + f + g;
  }

  // ---- The operations on their own, as runs ----

  /** One thread's steps with nobody between them. */
  function Alone(s: Shared, pc: Pc, actions: seq<Action>): Option<(Shared, Pc)> {
    if actions == [] then Some((s, pc))
    else
      var before :- Alone(s, pc, actions[..|actions| - 1]);
      StepOf(before.0, before.1, actions[|actions| - 1])
  }

  function StepsOf(t: nat, actions: seq<Action>): (steps: seq<(nat, Action)>)
    ensures |steps| == |actions| && forall k :: 0 <= k < |steps| ==> steps[k] == (t, actions[k])
  {
    seq(|actions|, k requires 0 <= k < |actions| => (t, actions[k]))
  }

  lemma {:induction false} AloneIsRun(y: System, t: nat, actions: seq<Action>)
    requires t < |y.threads|
    ensures var r := Alone(y.shared, y.threads[t], actions);
      r.Some? ==> Run(y, StepsOf(t, actions)) == Some(System(r.value.0, y.threads[t := r.value.1]))
  {
    hide StepOf;
    if actions == [] {
      assert y.threads[t := y.threads[t]] == y.threads;
    } else {
      var n := |actions| - 1;
      AloneIsRun(y, t, actions[..n]);
      var steps := StepsOf(t, actions);
      assert steps[..n] == StepsOf(t, actions[..n]) && steps[n] == (t, actions[n]);
      var r := Alone(y.shared, y.threads[t], actions);
      if r.Some? {
        var (shared, pc) := Alone(y.shared, y.threads[t], actions[..n]).value;
        assert y.threads[t := pc][t := r.value.1] == y.threads[t := r.value.1];
      }
    }
  }

  lemma OneMore(s: Shared, pc: Pc, actions: seq<Action>, a: Action)
    requires Alone(s, pc, actions).Some?
    ensures var (s', pc') := Alone(s, pc, actions).value; Alone(s, pc, actions + [a]) == StepOf(s', pc', a)
  {
    assert (actions + [a])[..|actions|] == actions;
  }

  lemma AbortAlone(s: Shared, actions: seq<Action>, s': Shared, job: Job) returns (more: seq<Action>)
    requires Alone(s, Idle, actions) == Some((s', Aborting(job)))
    ensures Alone(s, Idle, more) == Some((Clear(Unmark(s', job.id), job.id), Idle))
  {
    hide Alone;
    OneMore(s, Idle, actions, DoUnmark);
    OneMore(s, Idle, actions + [DoUnmark], DoClear);
    more := actions + [DoUnmark] + [DoClear];
  }

  /** The part of `CollectSwitch` up to the queue. */
  lemma SaveAlone(s: Shared, job: Job, withCredentials: bool) returns (actions: seq<Action>)
    requires job.id !in s.collecting
    ensures Alone(s, Idle, actions) ==
      Some((if withCredentials then Save(Mark(s, job.id), job) else Mark(s, job.id), Saved(job)))
  {
    assert Alone(s, Idle, []) == Some((s, Idle));
    hide Alone;
    OneMore(s, Idle, [], Submit(job));
    actions := [] + [Submit(job)];
    var save := if withCredentials then DoSave else SkipSave;
    OneMore(s, Idle, actions, save);
    actions := actions + [save];
  }

  lemma SubmitAlone(s: Shared, job: Job, withCredentials: bool, fault: bool) returns (actions: seq<Action>)
    ensures Alone(s, Idle, actions) == Some((Submitted(s, job, withCredentials, fault).1, Idle))
  {
    assert Alone(s, Idle, []) == Some((s, Idle));
    hide Alone;
    if job.id in s.collecting {
      OneMore(s, Idle, [], Submit(job));
      actions := [] + [Submit(job)];
    } else {
      var marked := Mark(s, job.id);
      var s' := if withCredentials then Save(marked, job) else marked;
      var last := if fault then Fault else DoPut;
      actions := SaveAlone(s, job, withCredentials);
      OneMore(s, Idle, actions, last);
      actions := actions + [last];
      if fault || |s.queue| >= CAPACITY {
        actions := AbortAlone(s, actions, s', job);
        assert s.collecting + {job.id} - {job.id} == s.collecting;
        assert s'.session - {job.id} == s.session - {job.id};
      }
    }
  }

  /** An uninterrupted `CollectSwitch` is a run of one idle thread in the step relation, whatever the other
      threads are in the middle of. */
  lemma SubmitIsRun(y: System, t: nat, job: Job, withCredentials: bool, fault: bool) returns (actions: seq<Action>)
    requires t < |y.threads| && y.threads[t] == Idle
    ensures Run(y, StepsOf(t, actions)) == Some(y.(shared := Submitted(y.shared, job, withCredentials, fault).1))
  {
    hide Run, Alone, Submitted;
    actions := SubmitAlone(y.shared, job, withCredentials, fault);
    AloneIsRun(y, t, actions);
    assert y.threads[t := Idle] == y.threads;
  }

  lemma WorkAlone(s: Shared, reaches: bool) returns (upTo: seq<Action>, actions: seq<Action>)
    requires s.queue != []
    ensures var job := s.queue[0];
      Alone(s, Idle, upTo) == Some((Take(s), if reaches then Loaded(job, Load(s, job.id)) else Working(job)))
    ensures upTo <= actions && Alone(s, Idle, actions) == Some((Worked(s), Idle))
  {
    hide Alone;
    upTo := TakeAlone(s, reaches);
    OneMore(s, Idle, upTo, DoClear);
    OneMore(s, Idle, upTo + [DoClear], DoUnmark);
    actions := upTo + [DoClear] + [DoUnmark];
  }

  lemma TakeAlone(s: Shared, reaches: bool) returns (upTo: seq<Action>)
    requires s.queue != []
    ensures var job := s.queue[0];
      Alone(s, Idle, upTo) == Some((Take(s), if reaches then Loaded(job, Load(s, job.id)) else Working(job)))
  {
    assert Alone(s, Idle, []) == Some((s, Idle));
    hide Alone;
    OneMore(s, Idle, [], TakeToWork);
    upTo := [] + [TakeToWork];
    if reaches {
      OneMore(s, Idle, upTo, DoLoad);
      upTo := upTo + [DoLoad];
    }
  }

  /** So is an uninterrupted `WorkerLoopOnce`, with the credential it loads on the way ... */
  lemma WorkIsRun(y: System, t: nat, reaches: bool) returns (upTo: seq<Action>, actions: seq<Action>)
    requires t < |y.threads| && y.threads[t] == Idle && y.shared.queue != []
    ensures upTo <= actions && Run(y, StepsOf(t, actions)) == Some(y.(shared := Worked(y.shared)))
    ensures
      var job := y.shared.queue[0];
      && Run(y, StepsOf(t, upTo)).Some?
      && Run(y, StepsOf(t, upTo)).value.threads[t] == if reaches then Loaded(job, Load(y.shared, job.id)) else Working(job)
  {
    hide Run, Alone, Worked, Take, Load;
    upTo, actions := WorkAlone(y.shared, reaches);
    AloneIsRun(y, t, upTo);
    AloneIsRun(y, t, actions);
    assert y.threads[t := Idle] == y.threads;
  }

  /** ... and an uninterrupted `CancelPending`. */
  lemma CancelIsRun(y: System, t: nat) returns (actions: seq<Action>)
    requires t < |y.threads| && y.threads[t] == Idle
    ensures Run(y, StepsOf(t, actions)) == Some(y.(shared := Emptied(y.shared)))
  {
    hide Run, Alone;
    var n := |y.shared.queue|;
    actions := CancelsFirst(y.shared, n);
    AloneIsRun(y, t, actions);
    assert y.shared.queue[..n] == y.shared.queue && y.shared.queue[n..] == [];
    assert y.threads[t := Idle] == y.threads;
  }

  lemma CancelAlone(s: Shared, front: seq<Action>, s': Shared) returns (actions: seq<Action>)
    requires Alone(s, Idle, front) == Some((s', Idle)) && s'.queue != []
    ensures
      var id := s'.queue[0].id;
      Alone(s, Idle, actions) == Some((Shared(s'.collecting - {id}, s'.queue[1..], s'.session - {id}), Idle))
  {
    hide Alone;
    OneMore(s, Idle, front, TakeToCancel);
    OneMore(s, Idle, front + [TakeToCancel], DoUnmark);
    OneMore(s, Idle, front + [TakeToCancel] + [DoUnmark], DoClear);
    actions := front + [TakeToCancel] + [DoUnmark] + [DoClear];
  }

  lemma {:induction false} CancelsFirst(s: Shared, n: nat) returns (actions: seq<Action>)
    requires n <= |s.queue|
    ensures Alone(s, Idle, actions) == Some((Without(s, n), Idle))
  {
    assert Alone(s, Idle, []) == Some((s, Idle));
    hide Alone;
    if n == 0 {
      actions := [];
      NoneReleased(s);
    } else {
      actions := CancelsFirst(s, n - 1);
      actions := CancelAlone(s, actions, Without(s, n - 1));
      OneReleased(s, n);
    }
  }

  /** The state once the first `n` queued switches are released. */
  function Without(s: Shared, n: nat): Shared
    requires n <= |s.queue|
  {
    var ids := Ids(s.queue[..n]);
    Shared(s.collecting - ids, s.queue[n..], s.session - ids)
  }

  lemma NoneReleased(s: Shared)
    ensures Without(s, 0) == s
  {
    var ids := Ids(s.queue[..0]);
    assert s.collecting - ids == s.collecting && s.session - ids == s.session;
  }

  lemma OneReleased(s: Shared, n: nat)
    requires 0 < n <= |s.queue|
    ensures
      var before, id := Without(s, n - 1), s.queue[n - 1].id;
      Without(s, n) == Shared(before.collecting - {id}, before.queue[1..], before.session - {id})
  {
    var job, ids := s.queue[n - 1], Ids(s.queue[..n - 1]);
    assert s.queue[..n] == s.queue[..n - 1] + [job];
    assert Ids(s.queue[..n]) == ids + {job.id};
    assert s.collecting - ids - {job.id} == s.collecting - (ids + {job.id});
    assert s.session - ids - {job.id} == s.session - (ids + {job.id});
  }

  // ---- Ownership ----

  predicate Owns(pc: Pc, id: Id) {
    pc != Idle && !pc.AbortUnmarked? && !pc.CancelUnmarked? && pc.job.id == id
  }

  function Count(b: bool): nat { if b then 1 else 0 }

  function ThreadOwners(threads: seq<Pc>, id: Id): nat {
    if threads == [] then 0 else Count(Owns(threads[0], id)) + ThreadOwners(threads[1..], id)
  }

  function QueueOwners(queue: seq<Job>, id: Id): nat {
    if queue == [] then 0 else Count(queue[0].id == id) + QueueOwners(queue[1..], id)
  }

  /** How many queue entries and threads (submitters, workers, cancellers) answer for `id`. */
  function Owners(y: System, id: Id): nat { ThreadOwners(y.threads, id) + QueueOwners(y.shared.queue, id) }

  /** The in-progress set is the disjoint union of its owners: one owner for each member, none for others. */
  ghost predicate Owned(y: System) { forall id :: Owners(y, id) == Count(id in y.shared.collecting) }

  lemma {:induction false} ThreadOwnersUpdate(threads: seq<Pc>, t: nat, pc: Pc, id: Id)
    requires t < |threads|
    ensures ThreadOwners(threads[t := pc], id) == ThreadOwners(threads, id) - Count(Owns(threads[t], id)) + Count(Owns(pc, id))
    ensures Count(Owns(threads[t], id)) <= ThreadOwners(threads, id)
  {
    if t > 0 {
      ThreadOwnersUpdate(threads[1..], t - 1, pc, id);
      assert threads[t := pc][1..] == threads[1..][t - 1 := pc];
    } else {
      assert threads[t := pc][1..] == threads[1..];
    }
  }

  lemma {:induction false} QueueOwnersAppend(queue: seq<Job>, job: Job, id: Id)
    ensures QueueOwners(queue + [job], id) == QueueOwners(queue, id) + Count(job.id == id)
  {
    if queue == [] {
      assert (queue + [job])[1..] == [];
    } else {
      QueueOwnersAppend(queue[1..], job, id);
      assert (queue + [job])[1..] == queue[1..] + [job];
    }
  }

  /** One step moves marks between the set, the queue and the thread without making or losing any. */
  lemma StepBalance(s: Shared, pc: Pc, a: Action, id: Id)
    requires StepOf(s, pc, a).Some? && (Owns(pc, id) ==> id in s.collecting)
    ensures
      var (s', pc') := StepOf(s, pc, a).value;
      Count(Owns(pc', id)) + QueueOwners(s'.queue, id) + Count(id in s.collecting) ==
      Count(Owns(pc, id)) + QueueOwners(s.queue, id) + Count(id in s'.collecting)
  {
    if a == DoPut {
      QueueOwnersAppend(s.queue, pc.job, id);
    }
  }

  lemma OwnedStep(y: System, t: nat, a: Action)
    requires Owned(y) && Step(y, t, a).Some?
    ensures Owned(Step(y, t, a).value)
  {
    hide StepOf, Owns, QueueOwners, ThreadOwners;
    var y' := Step(y, t, a).value;
    forall id ensures Owners(y', id) == Count(id in y'.shared.collecting) {
      assert Owners(y, id) == Count(id in y.shared.collecting);
      ThreadOwnersUpdate(y.threads, t, StepOf(y.shared, y.threads[t], a).value.1, id);
      StepBalance(y.shared, y.threads[t], a, id);
    }
  }

  lemma {:induction false} IdleOwnsNothing(threads: seq<Pc>, id: Id)
    requires forall t :: 0 <= t < |threads| ==> threads[t] == Idle
    ensures ThreadOwners(threads, id) == 0
  {
    if threads != [] { IdleOwnsNothing(threads[1..], id); }
  }

  /** In every state of every run, whatever the interleaving. */
  lemma {:induction false} OwnedAlways(n: nat, steps: seq<(nat, Action)>)
    requires Run(Init(n), steps).Some?
    ensures Owned(Run(Init(n), steps).value)
  {
    if steps == [] {
      forall id ensures Owners(Init(n), id) == 0 {
        IdleOwnsNothing(Idles(n), id);
      }
    } else {
      var init, last := steps[..|steps| - 1], steps[|steps| - 1];
      OwnedAlways(n, init);
      OwnedStep(Run(Init(n), init).value, last.0, last.1);
    }
  }

  lemma {:induction false} CountOfQueue(queue: seq<Job>, i: nat, j: nat)
    requires i < |queue| && j < |queue| && queue[i].id == queue[j].id
    ensures QueueOwners(queue, queue[i].id) >= if i == j then 1 else 2
  {
    if i > 0 && j > 0 {
      CountOfQueue(queue[1..], i - 1, j - 1);
    } else if i > 0 {
      CountOfQueue(queue[1..], i - 1, i - 1);
    } else if j > 0 {
      CountOfQueue(queue[1..], j - 1, j - 1);
    }
  }

  lemma {:induction false} CountOfThreads(threads: seq<Pc>, i: nat, j: nat, id: Id)
    requires i < |threads| && j < |threads| && Owns(threads[i], id) && Owns(threads[j], id)
    ensures ThreadOwners(threads, id) >= if i == j then 1 else 2
  {
    if i > 0 && j > 0 {
      CountOfThreads(threads[1..], i - 1, j - 1, id);
    } else if i > 0 {
      CountOfThreads(threads[1..], i - 1, i - 1, id);
    } else if j > 0 {
      CountOfThreads(threads[1..], j - 1, j - 1, id);
    }
  }

  /** So no id is held by two threads, queued while a thread holds it, or queued twice. */
  lemma OneOwner(y: System, id: Id)
    requires Owned(y)
    ensures forall i, j :: 0 <= i < |y.threads| && 0 <= j < |y.threads| && i != j && Owns(y.threads[i], id) ==>
      !Owns(y.threads[j], id)
    ensures forall i, k :: 0 <= i < |y.threads| && 0 <= k < |y.shared.queue| && Owns(y.threads[i], id) ==>
      y.shared.queue[k].id != id
    ensures forall k, l :: 0 <= k < |y.shared.queue| && 0 <= l < |y.shared.queue| && k != l && y.shared.queue[k].id == id ==>
      y.shared.queue[l].id != id
  {
    assert Owners(y, id) <= 1;
    forall i, j | 0 <= i < |y.threads| && 0 <= j < |y.threads| && i != j && Owns(y.threads[i], id)
      ensures !Owns(y.threads[j], id)
    {
      if Owns(y.threads[j], id) { CountOfThreads(y.threads, i, j, id); }
    }
    forall i, k | 0 <= i < |y.threads| && 0 <= k < |y.shared.queue| && Owns(y.threads[i], id)
      ensures y.shared.queue[k].id != id
    {
      CountOfThreads(y.threads, i, i, id);
      CountOfQueue(y.shared.queue, k, k);
    }
    forall k, l | 0 <= k < |y.shared.queue| && 0 <= l < |y.shared.queue| && k != l && y.shared.queue[k].id == id
      ensures y.shared.queue[l].id != id
    {
      if y.shared.queue[l].id == id { CountOfQueue(y.shared.queue, k, l); }
    }
  }

  // ---- Credentials ----

  /** The thread still has a clearing of `id`'s entry ahead of it. */
  predicate WillClear(pc: Pc, id: Id) { pc != Idle && !pc.WorkCleared? && pc.job.id == id }

  /** Every stored credential has somebody who will dispose of it. */
  ghost predicate Accounted(y: System) {
    forall id :: id in y.shared.session ==>
      (exists i :: 0 <= i < |y.threads| && WillClear(y.threads[i], id)) || id in Ids(y.shared.queue)
  }

  lemma AccountedStep(y: System, t: nat, a: Action)
    requires Accounted(y) && Step(y, t, a).Some?
    ensures Accounted(Step(y, t, a).value)
  {
    var y' := Step(y, t, a).value;
    forall id | id in y'.shared.session
      ensures (exists i :: 0 <= i < |y'.threads| && WillClear(y'.threads[i], id)) || id in Ids(y'.shared.queue)
    {
      if WillClear(y'.threads[t], id) {
      } else if id in y.shared.session {
        if i :| 0 <= i < |y.threads| && WillClear(y.threads[i], id) {
          if i != t {
            assert WillClear(y'.threads[i], id);
          } else {
            assert a == DoPut && y'.shared.queue[|y.shared.queue|].id == id;
          }
        } else {
          var job :| job in y.shared.queue && job.id == id;
          assert job in y'.shared.queue;
        }
      }
    }
  }

  /** A job that has stored its credential and has not begun to dispose of it. */
  predicate Active(pc: Pc) { pc.Saved? || pc.Working? || pc.Loaded? }

  /** What is stored under an active job's id is that job's own credential, and so is what a worker
      has loaded for it. */
  ghost predicate OwnCredential(y: System) {
    && (forall i :: 0 <= i < |y.threads| && Active(y.threads[i]) && y.threads[i].job.id in y.shared.session ==>
          y.shared.session[y.threads[i].job.id] == y.threads[i].job.serial)
    && (forall k :: 0 <= k < |y.shared.queue| && y.shared.queue[k].id in y.shared.session ==>
          y.shared.session[y.shared.queue[k].id] == y.shared.queue[k].serial)
    && (forall i :: 0 <= i < |y.threads| && y.threads[i].Loaded? && y.threads[i].cred.Some? ==>
          y.threads[i].cred.value == y.threads[i].job.serial)
  }

  lemma OwnCredentialStep(y: System, t: nat, a: Action)
    requires Owned(y) && OwnCredential(y) && a != SkipSave && Step(y, t, a).Some?
    ensures OwnCredential(Step(y, t, a).value)
  {
    hide Owned, Owners;
    if y.threads[t].Marked? {
      OneOwner(y, y.threads[t].job.id);
    }
  }

  /** When every submission carries credentials, over every run: a worker loads its own job's credential
      or none, never another submission's; and nothing stays in the store unaccounted for. */
  lemma {:induction false} CredentialsAlways(n: nat, steps: seq<(nat, Action)>)
    requires Run(Init(n), steps).Some?
    requires forall k :: 0 <= k < |steps| ==> steps[k].1 != SkipSave
    ensures OwnCredential(Run(Init(n), steps).value)
  {
    if steps != [] {
      var init, last := steps[..|steps| - 1], steps[|steps| - 1];
      CredentialsAlways(n, init);
      OwnedAlways(n, init);
      OwnCredentialStep(Run(Init(n), init).value, last.0, last.1);
    }
  }

  lemma {:induction false} AccountedAlways(n: nat, steps: seq<(nat, Action)>)
    requires Run(Init(n), steps).Some?
    ensures Accounted(Run(Init(n), steps).value)
  {
    if steps != [] {
      var init, last := steps[..|steps| - 1], steps[|steps| - 1];
      AccountedAlways(n, init);
      AccountedStep(Run(Init(n), init).value, last.0, last.1);
    }
  }

  /** The job is waiting in the queue, or in the hands of a thread other than `t`. */
  ghost predicate HeldBeside(y: System, t: nat, job: Job) {
    job in y.shared.queue || exists i :: 0 <= i < |y.threads| && i != t && Active(y.threads[i]) && y.threads[i].job == job
  }

  /** No step of another thread replaces the entry of a job that is queued or in hand; a late disposal may
      only remove it. */
  lemma EntryNeverReplaced(y: System, t: nat, a: Action, job: Job)
    requires Owned(y) && Step(y, t, a).Some? && HeldBeside(y, t, job)
    ensures
      var id, before, after := job.id, y.shared.session, Step(y, t, a).value.shared.session;
      id in after ==> id in before && after[id] == before[id]
  {
    hide Owned, Owners;
    OneOwner(y, job.id);
    if job in y.shared.queue {
      var k :| 0 <= k < |y.shared.queue| && y.shared.queue[k] == job;
    }
  }

  /** No thread is left that has unmarked the id and not yet cleared its entry. */
  ghost predicate NoLateDisposal(y: System, id: Id) {
    forall i :: 0 <= i < |y.threads| ==> !LateDisposer(y.threads[i], id)
  }

  predicate LateDisposer(pc: Pc, id: Id) { (pc.AbortUnmarked? || pc.CancelUnmarked?) && pc.job.id == id }

  /** Without a late disposal ahead, a queued job's entry survives every step but the job's own pick-up. */
  lemma CredentialKept(y: System, t: nat, a: Action, job: Job)
    requires Owned(y) && Step(y, t, a).Some? && job in y.shared.queue
    requires job.id in y.shared.session && y.shared.session[job.id] == job.serial && NoLateDisposal(y, job.id)
    ensures
      var y' := Step(y, t, a).value;
      && job.id in y'.shared.session && y'.shared.session[job.id] == job.serial && NoLateDisposal(y', job.id)
      && (job in y'.shared.queue || (a == TakeToWork && y'.threads[t] == Working(job))
          || (a == TakeToCancel && y'.threads[t] == Cancelling(job)))
  {
    hide Owned, Owners;
    OneOwner(y, job.id);
    var k :| 0 <= k < |y.shared.queue| && y.shared.queue[k] == job;
    var y' := Step(y, t, a).value;
    if a == TakeToWork || a == TakeToCancel {
      assert k > 0 ==> y'.shared.queue[k - 1] == job;
    } else {
      assert y'.shared.queue[k] == job;
    }
  }

  /** Without that condition the credential can be lost: stop and re-collect in quick succession, and the
      canceller clears the new submission's entry. */
  lemma LateDisposalLosesCredential() returns (steps: seq<(nat, Action)>)
    ensures Run(Init(2), steps).Some? && Loaded(Job(7, 1), None) in Run(Init(2), steps).value.threads
  {
    hide Run, Step;
    var s6, y6 := StopAndResubmit();
    var s7, y7 := RunOne(2, s6, y6, 0, DoSave, y6.(shared := Save(y6.shared, Job(7, 1)), threads := [Saved(Job(7, 1)), y6.threads[1]]));
    var s8, y8 := RunOne(2, s7, y7, 0, DoPut, y7.(shared := Put(y7.shared, Job(7, 1)), threads := [Idle, y7.threads[1]]));
    var s9, y9 := RunOne(2, s8, y8, 1, DoClear, y8.(shared := Clear(y8.shared, 7), threads := [Idle, Idle]));
    var s10, y10 := RunOne(2, s9, y9, 1, TakeToWork, y9.(shared := Take(y9.shared), threads := [Idle, Working(Job(7, 1))]));
    var s11, y11 := RunOne(2, s10, y10, 1, DoLoad, y10.(threads := [Idle, Loaded(Job(7, 1), None)]));
    steps := s11;
    assert y11.threads[1] == Loaded(Job(7, 1), None);
  }

  lemma StopAndResubmit() returns (steps: seq<(nat, Action)>, y: System)
    ensures Run(Init(2), steps) == Some(y) && y.shared.queue == []
    ensures y.threads == [Marked(Job(7, 1)), CancelUnmarked(Job(7, 0))]
  {
    hide Run, Step;
    var a, b, y0 := Job(7, 0), Job(7, 1), Init(2);
    RunNothing(2);
    var s1, y1 := RunOne(2, [], y0, 0, Submit(a), System(Mark(y0.shared, 7), [Marked(a), Idle]));
    var s2, y2 := RunOne(2, s1, y1, 0, DoSave, System(Save(y1.shared, a), [Saved(a), Idle]));
    var s3, y3 := RunOne(2, s2, y2, 0, DoPut, System(Put(y2.shared, a), [Idle, Idle]));
    var s4, y4 := RunOne(2, s3, y3, 1, TakeToCancel, System(Take(y3.shared), [Idle, Cancelling(a)]));
    var s5, y5 := RunOne(2, s4, y4, 1, DoUnmark, System(Unmark(y4.shared, 7), [Idle, CancelUnmarked(a)]));
    steps, y := RunOne(2, s5, y5, 0, Submit(b), System(Mark(y5.shared, 7), [Marked(b), CancelUnmarked(a)]));
  }

  lemma RunNothing(n: nat)
    ensures Run(Init(n), []) == Some(Init(n))
  {
  }

  lemma RunOne(n: nat, steps: seq<(nat, Action)>, y: System, t: nat, a: Action, next: System)
    returns (steps': seq<(nat, Action)>, y': System)
    requires Run(Init(n), steps) == Some(y) && t < |y.threads|
    requires StepOf(y.shared, y.threads[t], a).Some? && StepOf(y.shared, y.threads[t], a).value.0 == next.shared
    requires y.threads[t := StepOf(y.shared, y.threads[t], a).value.1] == next.threads
    ensures Run(Init(n), steps') == Some(y') && y' == next
  {
    steps', y' := steps + [(t, a)], next;
    assert steps'[..|steps|] == steps;
  }

  // ---- Draining ----

  function Rank(pc: Pc): nat {
    match pc
    case Idle => 0
    case AbortUnmarked(_) => 1
    case CancelUnmarked(_) => 1
    case WorkCleared(_) => 1
    case Aborting(_) => 2
    case Cancelling(_) => 2
    case Loaded(_, _) => 2
    case Working(_) => 3
    case Saved(_) => 5
    case Marked(_) => 6
  }

  function RankSum(threads: seq<Pc>): nat {
    if threads == [] then 0 else Rank(threads[0]) + RankSum(threads[1..])
  }

  /** An upper bound on the steps left once submissions stop. */
  function Measure(y: System): nat { RankSum(y.threads) + 4 * |y.shared.queue| }

  lemma {:induction false} RankSumUpdate(threads: seq<Pc>, t: nat, pc: Pc)
    requires t < |threads|
    ensures RankSum(threads[t := pc]) == RankSum(threads) - Rank(threads[t]) + Rank(pc)
  {
    if t > 0 {
      RankSumUpdate(threads[1..], t - 1, pc);
      assert threads[t := pc][1..] == threads[1..][t - 1 := pc];
    } else {
      assert threads[t := pc][1..] == threads[1..];
    }
  }

  lemma EveryStepDrains(y: System, t: nat, a: Action)
    requires Step(y, t, a).Some? && !a.Submit?
    ensures Measure(Step(y, t, a).value) < Measure(y)
  {
    RankSumUpdate(y.threads, t, Step(y, t, a).value.threads[t]);
  }

  /** What a thread does next when nothing stands in its way. */
  function NextAction(pc: Pc): Action {
    match pc
    case Idle => TakeToWork
    case Marked(_) => DoSave
    case Saved(_) => DoPut
    case Aborting(_) => DoUnmark
    case Cancelling(_) => DoUnmark
    case WorkCleared(_) => DoUnmark
    case AbortUnmarked(_) => DoClear
    case CancelUnmarked(_) => DoClear
    case Working(_) => DoLoad
    case Loaded(_, _) => DoClear
  }

  lemma {:induction false} SomeRank(threads: seq<Pc>)
    requires RankSum(threads) > 0
    ensures exists t :: 0 <= t < |threads| && threads[t] != Idle
  {
    if threads[0] == Idle {
      SomeRank(threads[1..]);
      var t :| 0 <= t < |threads[1..]| && threads[1..][t] != Idle;
      assert threads[t + 1] != Idle;
    } else {
      assert threads[0] != Idle;
    }
  }

  /** Until the measure is zero some thread can take its next step, so the system is never stuck. */
  lemma NeverStuck(y: System)
    requires |y.threads| > 0 && Measure(y) > 0
    ensures exists t :: 0 <= t < |y.threads| && Step(y, t, NextAction(y.threads[t])).Some?
  {
    if RankSum(y.threads) > 0 {
      SomeRank(y.threads);
      var t :| 0 <= t < |y.threads| && y.threads[t] != Idle;
      assert Step(y, t, NextAction(y.threads[t])).Some?;
    } else {
      RankZero(y.threads, 0);
      assert Step(y, 0, NextAction(y.threads[0])).Some?;
    }
  }

  lemma {:induction false} RankZero(threads: seq<Pc>, t: nat)
    requires RankSum(threads) == 0 && t < |threads|
    ensures threads[t] == Idle
  {
    if t > 0 { RankZero(threads[1..], t - 1); }
  }

  /** Where every run without new submissions ends: nothing in progress, no credential left in memory,
      and it takes no more steps than the measure it starts from. */
  lemma {:induction false} DrainsToEmpty(n: nat, steps: seq<(nat, Action)>, tail: seq<(nat, Action)>)
    requires Run(Init(n), steps).Some? && Run(Run(Init(n), steps).value, tail).Some?
    requires forall k :: 0 <= k < |tail| ==> !tail[k].1.Submit?
    ensures |tail| + Measure(Run(Run(Init(n), steps).value, tail).value) <= Measure(Run(Init(n), steps).value)
    ensures
      var last := Run(Run(Init(n), steps).value, tail).value;
      Measure(last) == 0 ==> last.shared == Shared({}, [], map[])
  {
    hide Run, Owned, Accounted, Measure;
    RunAppend(Init(n), steps, tail);
    RunDrains(Run(Init(n), steps).value, tail);
    OwnedAlways(n, steps + tail);
    AccountedAlways(n, steps + tail);
    QuiescentIsEmpty(Run(Run(Init(n), steps).value, tail).value);
  }

  /** ... and it gets there: from every reachable state there are such steps, without new submissions. */
  lemma ReachesEmpty(n: nat, steps: seq<(nat, Action)>) returns (tail: seq<(nat, Action)>)
    requires n > 0 && Run(Init(n), steps).Some?
    ensures Run(Run(Init(n), steps).value, tail).Some? && forall k :: 0 <= k < |tail| ==> !tail[k].1.Submit?
    ensures Run(Run(Init(n), steps).value, tail).value.shared == Shared({}, [], map[])
  {
    hide Run, Measure;
    RunKeepsThreads(Init(n), steps);
    tail := DrainingTail(Run(Init(n), steps).value);
    DrainsToEmpty(n, steps, tail);
  }

  lemma {:induction false} RunKeepsThreads(y: System, steps: seq<(nat, Action)>)
    requires Run(y, steps).Some?
    ensures |Run(y, steps).value.threads| == |y.threads|
  {
    hide StepOf;
    if steps != [] { RunKeepsThreads(y, steps[..|steps| - 1]); }
  }

  lemma {:induction false} DrainingTail(y: System) returns (tail: seq<(nat, Action)>)
    requires |y.threads| > 0
    ensures Run(y, tail).Some? && (forall k :: 0 <= k < |tail| ==> !tail[k].1.Submit?) && Measure(Run(y, tail).value) == 0
    decreases Measure(y)
  {
    if Measure(y) == 0 {
      return [];
    }
    hide StepOf, Measure, Run;
    NeverStuck(y);
    var t :| 0 <= t < |y.threads| && Step(y, t, NextAction(y.threads[t])).Some?;
    var a := NextAction(y.threads[t]);
    var next := Step(y, t, a).value;
    EveryStepDrains(y, t, a);
    var rest := DrainingTail(next);
    RunOneStep(y, t, a);
    RunAppend(y, [(t, a)], rest);
    tail := [(t, a)] + rest;
  }

  lemma RunOneStep(y: System, t: nat, a: Action)
    ensures Run(y, [(t, a)]) == Step(y, t, a)
  {
    hide Step;
    assert [(t, a)][..0] == [];
    assert Run(y, []) == Some(y);
  }

  lemma QuiescentIsEmpty(y: System)
    requires Owned(y) && Accounted(y)
    ensures Measure(y) == 0 ==> y.shared == Shared({}, [], map[])
  {
    if Measure(y) == 0 {
      forall t | 0 <= t < |y.threads| ensures y.threads[t] == Idle {
        RankZero(y.threads, t);
      }
      forall id ensures id !in y.shared.collecting && id !in y.shared.session {
        IdleOwnsNothing(y.threads, id);
        assert Owners(y, id) == Count(id in y.shared.collecting);
      }
    }
  }

  lemma {:induction false} RunDrains(y: System, tail: seq<(nat, Action)>)
    requires Run(y, tail).Some? && forall k :: 0 <= k < |tail| ==> !tail[k].1.Submit?
    ensures |tail| + Measure(Run(y, tail).value) <= Measure(y)
  {
    if tail != [] {
      var init, last := tail[..|tail| - 1], tail[|tail| - 1];
      RunDrains(y, init);
      EveryStepDrains(Run(y, init).value, last.0, last.1);
    }
  }

  lemma {:induction false} RunAppend(y: System, steps: seq<(nat, Action)>, tail: seq<(nat, Action)>)
    requires Run(y, steps).Some? && Run(Run(y, steps).value, tail).Some?
    ensures Run(y, steps + tail) == Run(Run(y, steps).value, tail)
  {
    if tail == [] {
      assert steps + [] == steps;
    } else {
      RunAppend(y, steps, tail[..|tail| - 1]);
      assert (steps + tail)[..|steps + tail| - 1] == steps + tail[..|tail| - 1];
    }
  }
}

/** When a collection job can count on the credential submitted with it: the exact condition, over every
    continuation of every state of the collection queue. */
module CollectCredentials {
  import opened Wrappers
  import opened CollectQueue

  /** The job has stored its credential and has yet to load it. */
  ghost predicate Waits(y: System, job: Job) {
    || job in y.shared.queue
    || exists i :: 0 <= i < |y.threads| && (y.threads[i] == Saved(job) || y.threads[i] == Working(job))
  }

  /** The job's serial is its own: the steps do not submit it a second time. */
  ghost predicate Without(steps: seq<(nat, Action)>, job: Job) {
    forall k :: 0 <= k < |steps| ==> steps[k].1 != Submit(job)
  }

  /** Wherever the job has been through its loading, it got its own credential. */
  ghost predicate LoadsOwn(y: System, job: Job) {
    forall i :: 0 <= i < |y.threads| && y.threads[i].Loaded? && y.threads[i].job == job ==>
      y.threads[i].cred == Some(job.serial)
  }

  // ---- Enough ----

  ghost predicate Good(y: System, job: Job) {
    && LoadsOwn(y, job)
    && (forall i :: 0 <= i < |y.threads| ==> y.threads[i] != Marked(job))
    && (Waits(y, job) ==> Load(y.shared, job.id) == Some(job.serial) && NoLateDisposal(y, job.id))
  }

  lemma OwnerOfWaiting(y: System, job: Job, i: nat)
    requires Owned(y) && Waits(y, job) && i < |y.threads| && Owns(y.threads[i], job.id)
    ensures (y.threads[i] == Saved(job) || y.threads[i] == Working(job)) && job !in y.shared.queue
  {
    hide Owned, Owners;
    OneOwner(y, job.id);
  }

  lemma GoodStart(y: System, job: Job)
    requires Owned(y) && Waits(y, job) && Load(y.shared, job.id) == Some(job.serial) && NoLateDisposal(y, job.id)
    ensures Good(y, job)
  {
    hide Owned, Waits;
    forall i | 0 <= i < |y.threads| && (y.threads[i].Loaded? || y.threads[i].Marked?) ensures y.threads[i].job != job {
      if y.threads[i].job == job { OwnerOfWaiting(y, job, i); }
    }
  }

  /** Only the job itself moves it on, so it waited before if it waits now. */
  lemma WaitedBefore(y: System, t: nat, a: Action, job: Job)
    requires Step(y, t, a).Some? && Waits(Step(y, t, a).value, job) && y.threads[t] != Marked(job)
    ensures Waits(y, job)
  {
    var y' := Step(y, t, a).value;
    if job in y'.shared.queue && job !in y.shared.queue {
      assert y.threads[t] == Saved(job);
    } else if job !in y'.shared.queue {
      var i :| 0 <= i < |y'.threads| && (y'.threads[i] == Saved(job) || y'.threads[i] == Working(job));
      if i != t { assert y.threads[i] == y'.threads[i]; }
    }
  }

  lemma WaitingKept(y: System, t: nat, a: Action, job: Job)
    requires Owned(y) && Good(y, job) && Step(y, t, a).Some? && Waits(y, job) && Waits(Step(y, t, a).value, job)
    ensures Load(Step(y, t, a).value.shared, job.id) == Some(job.serial) && NoLateDisposal(Step(y, t, a).value, job.id)
  {
    hide Owned, LoadsOwn, Waits;
    var y' := Step(y, t, a).value;
    if Owns(y.threads[t], job.id) {
      OwnerOfWaiting(y, job, t);
      OwnerMovesOn(y, t, a, job);
    }
    forall i | 0 <= i < |y'.threads|
      ensures !LateDisposer(y'.threads[i], job.id)
    {
      if i != t { assert y'.threads[i] == y.threads[i]; }
    }
  }

  /** The thread that holds a waiting job does not clear its entry and have it wait on. */
  lemma OwnerMovesOn(y: System, t: nat, a: Action, job: Job)
    requires Owned(y) && Step(y, t, a).Some? && Waits(Step(y, t, a).value, job)
    requires (y.threads[t] == Saved(job) || y.threads[t] == Working(job)) && job !in y.shared.queue
    ensures a != DoClear
  {
    hide Owned;
    OneOwner(y, job.id);
  }

  lemma GoodStep(y: System, t: nat, a: Action, job: Job)
    requires Owned(y) && Good(y, job) && Step(y, t, a).Some? && a != Submit(job)
    ensures Good(Step(y, t, a).value, job)
  {
    hide Owned, Waits;
    var y' := Step(y, t, a).value;
    if Waits(y', job) {
      WaitedBefore(y, t, a, job);
      WaitingKept(y, t, a, job);
    }
    forall i | 0 <= i < |y'.threads| ensures y'.threads[i] != Marked(job) {
      if i != t { assert y'.threads[i] == y.threads[i]; }
    }
    forall i | 0 <= i < |y'.threads| && y'.threads[i].Loaded? && y'.threads[i].job == job
      ensures y'.threads[i].cred == Some(job.serial)
    {
      if i != t {
        assert y'.threads[i] == y.threads[i];
      } else {
        WorkingWaits(y, t, job);
      }
    }
  }

  lemma WorkingWaits(y: System, t: nat, job: Job)
    requires t < |y.threads|
    ensures y.threads[t] == Working(job) ==> Waits(y, job)
  {
  }

  lemma {:induction false} GoodRun(y: System, steps: seq<(nat, Action)>, job: Job)
    requires Owned(y) && Good(y, job) && Run(y, steps).Some? && Without(steps, job)
    ensures Owned(Run(y, steps).value) && Good(Run(y, steps).value, job)
  {
    if steps != [] {
      hide Owned, Good, Step;
      var init, last := steps[..|steps| - 1], steps[|steps| - 1];
      GoodRun(y, init, job);
      OwnedStep(Run(y, init).value, last.0, last.1);
      GoodStep(Run(y, init).value, last.0, last.1, job);
    }
  }

  // ---- Necessary ----

  /** A run of `start` extended by one step. */
  lemma Extend(start: System, steps: seq<(nat, Action)>, y: System, job: Job, t: nat, a: Action)
    returns (steps': seq<(nat, Action)>, y': System)
    requires Run(start, steps) == Some(y) && Without(steps, job) && Step(y, t, a).Some? && a != Submit(job)
    ensures Run(start, steps') == Some(y') && Without(steps', job) && y' == Step(y, t, a).value
  {
    hide Step;
    steps', y' := steps + [(t, a)], Step(y, t, a).value;
    assert steps'[..|steps|] == steps;
  }

  /** The idle thread `i` cancels the job at the head of the queue. */
  lemma CancelHead(start: System, steps: seq<(nat, Action)>, y: System, job: Job, i: nat)
    returns (steps': seq<(nat, Action)>, y': System)
    requires Run(start, steps) == Some(y) && Without(steps, job)
    requires i < |y.threads| && y.threads[i] == Idle && y.shared.queue != []
    ensures Run(start, steps') == Some(y') && Without(steps', job)
    ensures y'.threads == y.threads && y'.shared.queue == y.shared.queue[1..]
    ensures Load(y.shared, job.id) == None ==> Load(y'.shared, job.id) == None
  {
    hide Run, Without;
    steps', y' := Extend(start, steps, y, job, i, TakeToCancel);
    steps', y' := Extend(start, steps', y', job, i, DoUnmark);
    steps', y' := Extend(start, steps', y', job, i, DoClear);
    assert y'.threads == y.threads;
  }

  lemma {:induction false} WorkUpTo(start: System, steps: seq<(nat, Action)>, y: System, job: Job, i: nat, k: nat)
    returns (steps': seq<(nat, Action)>, y': System)
    requires Run(start, steps) == Some(y) && Without(steps, job) && Load(y.shared, job.id) == None
    requires i < |y.threads| && y.threads[i] == Idle && k < |y.shared.queue| && y.shared.queue[k] == job
    ensures Run(start, steps') == Some(y') && Without(steps', job) && !LoadsOwn(y', job)
    decreases k
  {
    hide Run, Without;
    if k == 0 {
      steps', y' := Extend(start, steps, y, job, i, TakeToWork);
      steps', y' := Extend(start, steps', y', job, i, DoLoad);
      assert y'.threads[i] == Loaded(job, None);
    } else {
      steps', y' := CancelHead(start, steps, y, job, i);
      steps', y' := WorkUpTo(start, steps', y', job, i, k - 1);
    }
  }

  /** A late disposer clears the entry, and the job goes on to load nothing. */
  lemma LateDisposalLoses(y: System, job: Job, i: nat) returns (steps: seq<(nat, Action)>)
    requires Waits(y, job) && i < |y.threads| && LateDisposer(y.threads[i], job.id)
    ensures Run(y, steps).Some? && Without(steps, job) && !LoadsOwn(Run(y, steps).value, job)
  {
    hide Run;
    RunEmpty(y);
    var y';
    steps, y' := Extend(y, [], y, job, i, DoClear);
    assert Load(y'.shared, job.id) == None && y'.threads[i] == Idle && y'.shared.queue == y.shared.queue;
    if job in y.shared.queue {
      var k :| 0 <= k < |y.shared.queue| && y.shared.queue[k] == job;
      steps, y' := WorkUpTo(y, steps, y', job, i, k);
    } else {
      var t :| 0 <= t < |y.threads| && (y.threads[t] == Saved(job) || y.threads[t] == Working(job));
      assert t != i && y'.threads[t] == y.threads[t];
      if y.threads[t] == Working(job) {
        steps, y' := Extend(y, steps, y', job, t, DoLoad);
        assert y'.threads[t] == Loaded(job, None);
      } else {
        while |y'.shared.queue| >= CAPACITY
          invariant Run(y, steps) == Some(y') && Without(steps, job) && Load(y'.shared, job.id) == None
          invariant |y'.threads| == |y.threads| && y'.threads[i] == Idle && y'.threads[t] == Saved(job)
          decreases |y'.shared.queue|
        {
          steps, y' := CancelHead(y, steps, y', job, i);
        }
        steps, y' := Extend(y, steps, y', job, t, DoPut);
        var last := |y'.shared.queue| - 1;
        assert y'.shared.queue[last] == job && y'.threads[i] == Idle;
        steps, y' := WorkUpTo(y, steps, y', job, i, last);
      }
    }
  }

  lemma RunEmpty(y: System)
    ensures Run(y, []) == Some(y)
  {
  }

  /** A job that has its own credential stored, from the moment it is saved to the moment it is picked up, is
      sure to load it, whatever all threads do, exactly when no thread is left that has unmarked the same id and
      not yet cleared its entry. (Every reachable state is Owned, by OwnedAlways.) */
  lemma CredentialSafeIff(y: System, job: Job)
    requires Owned(y) && Waits(y, job) && job.id in y.shared.session && y.shared.session[job.id] == job.serial
    ensures NoLateDisposal(y, job.id) <==>
      forall steps :: Run(y, steps).Some? && Without(steps, job) ==> LoadsOwn(Run(y, steps).value, job)
  {
    hide Run, Owned, LoadsOwn, Waits, Without;
    assert Load(y.shared, job.id) == Some(job.serial);
    if NoLateDisposal(y, job.id) {
      GoodStart(y, job);
      forall steps | Run(y, steps).Some? && Without(steps, job) ensures LoadsOwn(Run(y, steps).value, job) {
        GoodRun(y, steps, job);
      }
    } else {
      var i :| 0 <= i < |y.threads| && LateDisposer(y.threads[i], job.id);
      var steps := LateDisposalLoses(y, job, i);
    }
  }
}

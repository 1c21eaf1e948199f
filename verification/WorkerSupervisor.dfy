/**
  `WorkerSupervisorImpl` (apps/worker/worker-supervisor.ts): its fields, and its methods
  cut at their awaits.  Each method is proved to take the step of SupervisorLifecycle.
*/
module WorkerSupervisor {
  import opened Options
  import opened SupervisorLifecycle

  lemma LaunchedFromNone(s: State)
    requires s.loops == map[] && !s.aborted
    ensures Launched(s) == s.(running := true, listening := true, workerPromises := Ids(s.born, s.size), activeWorkers := s.size,
                              loops := Spawned(s.born, s.size), born := s.born + s.size,
                              starts := s.starts + [StartPromise(true, false, [])], startPromise := Some(|s.starts|))
  {
    assert s.loops + Spawned(s.born, s.size) == Spawned(s.born, s.size);
  }

  class Supervisor {
    const size: nat
    var running: bool
    var activeWorkers: int
    var workerPromises: seq<nat>
    var startPromise: Option<nat>
    var stopPromise: Option<StopPromise>
    var sleepCancelCallbacks: set<nat>
    var abortListener: bool
    var signalAborted: bool
    var loops: map<nat, Loop>
    var starts: seq<StartPromise>
    var born: nat
    var history: seq<Return>

    /** The callbacks registered are those of the sleeping loops. */
    predicate Valid()
      reads this
    {
      sleepCancelCallbacks == (set w | w in loops && loops[w].Sleeping?)
      && (startPromise.Some? ==> startPromise.value < |starts|)
    }

    function View(): State
      reads this
    {
      State(size, running, signalAborted, abortListener, activeWorkers, workerPromises, loops, born, starts, startPromise, stopPromise, history)
    }

    /** `size` is the sum of the targets' concurrencies. */
    constructor (size: nat)
      ensures Valid() && View() == Initial(size)
    {
      this.size := size;
      running, activeWorkers, workerPromises := false, 0, [];
      startPromise, stopPromise, sleepCancelCallbacks := None, None, {};
      abortListener, signalAborted := false, false;
      loops, starts, born, history := map[], [], 0, [];
    }

    method WakeUpAll()
      requires Valid()
      modifies this`loops, this`sleepCancelCallbacks
      ensures Valid() && loops == Woke(old(loops)) && sleepCancelCallbacks == {}
    {
      var waking := sleepCancelCallbacks;
      while waking != {}
        invariant waking <= sleepCancelCallbacks && Valid()
        invariant sleepCancelCallbacks == waking && Woke(loops) == Woke(old(loops))
        decreases waking
      {
        var w :| w in waking;
        waking := waking - {w};
        loops := loops[w := Woken];
        sleepCancelCallbacks := sleepCancelCallbacks - {w};
      }
      forall w | w in loops ensures !loops[w].Sleeping? {
        assert w !in sleepCancelCallbacks;
      }
      assert loops == Woke(loops);
    }

    method GoOn(c: StopCall)
      requires Valid()
      modifies this`history, this`starts
      ensures Valid() && View() == Returned(old(View()), c)
    {
      history := history + [SupervisorLifecycle.Return.Return(c, |loops|)];
      if c.Inner? && c.p < |starts| { starts := starts[c.p := starts[c.p].(done := true)]; }
    }

    method StopOnceStarted(c: StopCall)
      requires Valid()
      modifies this
      ensures Valid() && View() == StopBody(old(View()), c) && |starts| == |old(starts)|
    {
      if stopPromise.Some? {
        stopPromise := Some(stopPromise.value.(waiters := stopPromise.value.waiters + [Joiner(c)]));
        return;
      }
      if !running && |workerPromises| == 0 {
        GoOn(c);
        return;
      }
      running := false;
      abortListener := false;
      WakeUpAll();
      stopPromise := Some(StopPromise(c, []));
    }

    method Stop(c: StopCall)
      requires Valid()
      modifies this
      ensures Valid() && View() == StopCalled(old(View()), c) && |starts| == |old(starts)|
    {
      if startPromise.Some? {
        var p := startPromise.value;
        starts := starts[p := starts[p].(waiters := starts[p].waiters + [c])];
        return;
      }
      StopOnceStarted(c);
    }

    /** Runs a fresh loop to its first await. */
    method RunSupervisedWorker()
      requires Valid() && born !in loops
      modifies this`activeWorkers, this`loops, this`born, this`workerPromises
      ensures Valid() && activeWorkers == old(activeWorkers) + 1 && born == old(born) + 1
      ensures loops == old(loops)[old(born) := Receiving] && workerPromises == old(workerPromises) + [old(born)]
    {
      activeWorkers := activeWorkers + 1;
      loops := loops[born := Receiving];
      workerPromises := workerPromises + [born];
      born := born + 1;
    }

    method SpawnAll()
      requires Valid() && loops == map[]
      modifies this`activeWorkers, this`loops, this`born, this`workerPromises
      ensures Valid() && activeWorkers == size && born == old(born) + size && workerPromises == Ids(old(born), size)
      ensures loops == Spawned(old(born), size)
    {
      workerPromises, activeWorkers := [], 0;
      for i := 0 to size
        invariant Valid() && activeWorkers == i && born == old(born) + i
        invariant workerPromises == Ids(old(born), i) && loops == Spawned(old(born), i)
      {
        RunSupervisedWorker();
      }
    }

    /** A start that finds the signal aborted. */
    method StartAborted()
      requires Valid() && signalAborted
      modifies this
      ensures Valid() && View() == Launched(old(View()))
    {
      hide StopCalled;
      var p := |starts|;
      running := true;
      starts := starts + [StartPromise(false, false, [])];
      Stop(Inner(p));
      startPromise := Some(p);
    }

    method Launch()
      requires Valid() && loops == map[]
      modifies this
      ensures Valid() && View() == Launched(old(View()))
    {
      hide Spawned, Ids, StopCalled, Launched;
      if signalAborted {
        StartAborted();
        return;
      }
      LaunchedFromNone(View());
      running := true;
      abortListener := true;
      SpawnAll();
      starts := starts + [StartPromise(true, false, [])];
      startPromise := Some(|starts| - 1);
    }

    method Start()
      requires Valid() && Inv(View())
      modifies this
      ensures Valid() && View() == Step(old(View()), CallStart)
    {
      if running || startPromise.Some? { return; }
      if stopPromise.Some? {
        stopPromise := Some(stopPromise.value.(waiters := stopPromise.value.waiters + [Starter]));
        return;
      }
      NothingRuns(View());
      Launch();
    }

    method AbortSignal(n: nat)
      requires Valid()
      modifies this
      ensures Valid() && View() == Step(old(View()), Abort(n))
    {
      signalAborted := true;
      if abortListener {
        abortListener := false;
        Stop(Outer(n));
      }
    }

    /** A start goes on after its body, then the stops that waited for it. */
    method StartPromiseSettled(p: nat)
      requires Valid() && Enabled(View(), StartSettles(p))
      modifies this
      ensures Valid() && View() == Step(old(View()), StartSettles(p))
    {
      startPromise := None;
      var waiters := starts[p].waiters;
      starts := starts[p := starts[p].(settled := true)];
      ghost var s := View();
      for i := 0 to |waiters|
        invariant Valid() && View() == StopsResumed(s, waiters[..i])
      {
        assert waiters[..i + 1][..i] == waiters[..i];
        StopOnceStarted(waiters[i]);
      }
      assert waiters[..|waiters|] == waiters;
    }

    method ResumeWaiters(waiters: seq<Waiter>)
      requires Valid() && Inv(View()) && loops == map[] && stopPromise.None? && (!running || signalAborted)
      modifies this
      ensures Valid() && View() == AllResumed(old(View()), waiters)
    {
      hide Inv, Launched, Returned, NoneStopping, Found, StarterIn;
      for i := 0 to |waiters|
        invariant Valid() && View() == AllResumed(old(View()), waiters[..i])
      {
        assert waiters[..i + 1][..i] == waiters[..i];
        assert running || loops == map[] by { WaitersResumed(old(View()), waiters[..i]); }
        match waiters[i]
        case Starter => if !running { Launch(); }
        case Joiner(c) => GoOn(c);
      }
      assert waiters[..|waiters|] == waiters;
    }

    /** All loops have ended: the stop that began goes on, then the starts and stops that waited. */
    method StopPromiseSettled()
      requires Valid() && Inv(View()) && Enabled(View(), StopSettles)
      modifies this
      ensures Valid() && View() == Step(old(View()), StopSettles)
    {
      SettledIsEmpty(View());
      EmptiedState(View());
      hide Inv, Returned, AllResumed;
      var creator, waiters := stopPromise.value.creator, stopPromise.value.waiters;
      workerPromises, activeWorkers, stopPromise := [], 0, None;
      GoOn(creator);
      ResumeWaiters(waiters);
    }

    /** One step of a worker loop, from one await to the next. */
    method WorkerStep(w: nat, o: Outcome)
      requires Valid() && w in loops
      modifies this
      ensures Valid() && View() == Worked(old(View()), w, o)
    {
      var at := loops[w];
      sleepCancelCallbacks := sleepCancelCallbacks - {w};
      if !running {
        loops := loops - {w};
        activeWorkers := activeWorkers - 1;
        return;
      }
      if at.Receiving? && o.Message? {
        loops := loops[w := Working];
      } else if at.Receiving? && (o.Empty? || o.Threw?) {
        loops := loops[w := Sleeping];
        sleepCancelCallbacks := sleepCancelCallbacks + {w};
      } else {
        loops := loops[w := Receiving];
      }
    }
  }
}

/** What becomes of the supervisor's starts: none is left hanging, and none spawns after an abort. */
module SupervisorStarts {
  import opened Options
  import opened SupervisorLifecycle

  // ---------------------------------------------------------------- after an abort

  lemma {:induction false} ResumedStopsStayAborted(s: State, calls: seq<StopCall>)
    ensures StopsResumed(s, calls).aborted == s.aborted && StopsResumed(s, calls).born == s.born
    decreases |calls|
  {
    if calls != [] { ResumedStopsStayAborted(s, calls[..|calls| - 1]); }
  }

  lemma {:induction false} ResumedWaitersStayAborted(s: State, ws: seq<Waiter>)
    requires s.aborted
    ensures AllResumed(s, ws).aborted && AllResumed(s, ws).born == s.born
    decreases |ws|
  {
    if ws != [] { ResumedWaitersStayAborted(s, ws[..|ws| - 1]); }
  }

  lemma AbortedStep(s: State, e: Event)
    requires Enabled(s, e) && (s.aborted || e.Abort?)
    ensures Step(s, e).aborted && Step(s, e).born == s.born
  {
    match e
    case StartSettles(p) =>
      ResumedStopsStayAborted(s.(starts := s.starts[p := s.starts[p].(settled := true)], startPromise := None), s.starts[p].waiters);
    case StopSettles => ResumedWaitersStayAborted(Emptied(s), s.stopPromise.value.waiters);
    case _ =>
  }

  /** Once the signal has been aborted, no start of any later run spawns a loop. */
  lemma {:induction false} AbortedSpawnsNothing(s: State, n: nat, events: seq<Event>)
    requires ValidRun(Step(s, Abort(n)), events)
    ensures var s' := Run(Step(s, Abort(n)), events); s'.aborted && s'.born == s.born
    decreases |events|
  {
    AbortedStep(s, Abort(n));
    hide Step, Enabled;
    if events != [] {
      var before := events[..|events| - 1];
      AbortedSpawnsNothing(s, n, before);
      AbortedStep(Run(Step(s, Abort(n)), before), events[|events| - 1]);
    }
  }

  // ---------------------------------------------------------------- no start is left hanging

  /** The stop call waits for the stop under way, or for a start that has not settled. */
  predicate Waits(s: State, c: StopCall) {
    (s.stopPromise.Some? && (s.stopPromise.value.creator == c || Joiner(c) in s.stopPromise.value.waiters))
    || exists q :: 0 <= q < |s.starts| && !s.starts[q].settled && c in s.starts[q].waiters
  }

  /** The start is done, or the stop call it makes on an aborted signal waits. */
  predicate Accounted(s: State, p: nat) { p < |s.starts| ==> s.starts[p].done || Waits(s, Inner(p)) }

  predicate PromiseUnsettled(s: State) {
    s.startPromise.Some? ==> s.startPromise.value < |s.starts| && !s.starts[s.startPromise.value].settled
  }

  ghost predicate AllAccounted(s: State) { PromiseUnsettled(s) && forall p: nat :: Accounted(s, p) }

  /** What waited in a start still does when only other things about the starts changed. */
  lemma StillWaits(s: State, s': State, c: StopCall)
    requires |s.starts| <= |s'.starts|
    requires forall q :: 0 <= q < |s.starts| ==> s'.starts[q].settled == s.starts[q].settled && forall x :: x in s.starts[q].waiters ==> x in s'.starts[q].waiters
    requires s.stopPromise.Some? ==>
      s'.stopPromise.Some? && s'.stopPromise.value.creator == s.stopPromise.value.creator
      && forall x :: x in s.stopPromise.value.waiters ==> x in s'.stopPromise.value.waiters
    ensures Waits(s, c) ==> Waits(s', c)
  {
    if exists q :: 0 <= q < |s.starts| && !s.starts[q].settled && c in s.starts[q].waiters {
      var q :| 0 <= q < |s.starts| && !s.starts[q].settled && c in s.starts[q].waiters;
      assert !s'.starts[q].settled && c in s'.starts[q].waiters;
    }
  }

  lemma ReturnedAccounts(s: State, c: StopCall, p: nat)
    ensures Accounted(s, p) || c == Inner(p) ==> Accounted(Returned(s, c), p)
    ensures |Returned(s, c).starts| == |s.starts| && (PromiseUnsettled(s) ==> PromiseUnsettled(Returned(s, c)))
  {
    StillWaits(s, Returned(s, c), Inner(p));
    hide Waits;
  }

  lemma StopBodyAccounts(s: State, c: StopCall, p: nat)
    ensures Accounted(s, p) || c == Inner(p) ==> Accounted(StopBody(s, c), p)
    ensures |StopBody(s, c).starts| == |s.starts| && (PromiseUnsettled(s) ==> PromiseUnsettled(StopBody(s, c)))
  {
    ReturnedAccounts(s, c, p);
    if s.stopPromise.Some? || s.running || s.workerPromises != [] {
      var s' := StopBody(s, c);
      assert s.stopPromise.Some? ==> s'.stopPromise.value.waiters[|s.stopPromise.value.waiters|] == Joiner(c);
      StillWaits(s, s', Inner(p));
      assert Waits(s', c);
    }
    hide Waits, Returned;
  }

  lemma StopCalledAccounts(s: State, c: StopCall, p: nat)
    requires PromiseUnsettled(s)
    ensures Accounted(s, p) || c == Inner(p) ==> Accounted(StopCalled(s, c), p)
    ensures |StopCalled(s, c).starts| == |s.starts| && PromiseUnsettled(StopCalled(s, c))
  {
    StopBodyAccounts(s, c, p);
    if s.startPromise.Some? {
      var q, s' := s.startPromise.value, StopCalled(s, c);
      StillWaits(s, s', Inner(p));
      assert s'.starts[q].waiters[|s.starts[q].waiters|] == c;
      assert Waits(s', c);
    }
    hide Waits, StopBody;
  }

  lemma LaunchedAccounts(s: State, p: nat)
    requires PromiseUnsettled(s) && Accounted(s, p)
    ensures Accounted(Launched(s), p) && PromiseUnsettled(Launched(s))
  {
    var n := |s.starts|;
    var added := s.(running := true, starts := s.starts + [StartPromise(!s.aborted, false, [])]);
    StillWaits(s, added, Inner(p));
    if s.aborted {
      StopCalledAccounts(added, Inner(n), p);
      var stopped := StopCalled(added, Inner(n));
      SettledStays(added, Inner(n), n);
      StillWaits(stopped, stopped.(startPromise := Some(n)), Inner(p));
    } else {
      StillWaits(added, Launched(s), Inner(p));
    }
    hide Waits, StopCalled;
  }

  lemma SettledStays(s: State, c: StopCall, q: nat)
    requires q < |s.starts|
    ensures q < |StopCalled(s, c).starts| && StopCalled(s, c).starts[q].settled == s.starts[q].settled
  {
  }

  lemma {:induction false} StopsResumedAccount(s: State, calls: seq<StopCall>, p: nat)
    ensures Accounted(s, p) || Inner(p) in calls ==> Accounted(StopsResumed(s, calls), p)
    ensures PromiseUnsettled(s) ==> PromiseUnsettled(StopsResumed(s, calls))
    decreases |calls|
  {
    if calls != [] {
      var before, last := calls[..|calls| - 1], calls[|calls| - 1];
      StopsResumedAccount(s, before, p);
      StopBodyAccounts(StopsResumed(s, before), last, p);
      assert calls == before + [last];
      hide StopBody, Accounted, PromiseUnsettled;
    }
  }

  lemma {:induction false} AllResumedAccount(s: State, ws: seq<Waiter>, p: nat)
    requires PromiseUnsettled(s)
    ensures Accounted(s, p) || Joiner(Inner(p)) in ws ==> Accounted(AllResumed(s, ws), p)
    ensures PromiseUnsettled(AllResumed(s, ws))
    decreases |ws|
  {
    if ws != [] {
      var before, last := ws[..|ws| - 1], ws[|ws| - 1];
      AllResumedAccount(s, before, p);
      ResumedAccounts(AllResumed(s, before), last, p);
      assert ws == before + [last];
      hide Resumed, Accounted, PromiseUnsettled;
    }
  }

  lemma ResumedAccounts(s: State, w: Waiter, p: nat)
    requires PromiseUnsettled(s)
    ensures Accounted(s, p) || w == Joiner(Inner(p)) ==> Accounted(Resumed(s, w), p)
    ensures PromiseUnsettled(Resumed(s, w))
  {
    match w
    case Starter =>
      if Accounted(s, p) { LaunchedAccounts(s, p); } else { LaunchedPromise(s); }
    case Joiner(c) => ReturnedAccounts(s, c, p);
  }

  lemma LaunchedPromise(s: State)
    requires PromiseUnsettled(s)
    ensures PromiseUnsettled(Launched(s))
  {
    LaunchedAccounts(s, |s.starts|);
  }

  /** The stop calls that waited for the settled start go on; what else waited still does. */
  lemma StartSettledAccounts(s: State, q: nat, p: nat)
    requires q < |s.starts| && Accounted(s, p)
    ensures Accounted(StartSettled(s, q), p) && PromiseUnsettled(StartSettled(s, q))
  {
    var mid := s.(starts := s.starts[q := s.starts[q].(settled := true)], startPromise := None);
    StopsResumedAccount(mid, s.starts[q].waiters, p);
    if p < |s.starts| && Inner(p) !in s.starts[q].waiters && Waits(s, Inner(p)) {
      assert Waits(mid, Inner(p)) by { OtherWait(s, mid, q, Inner(p)); }
    }
    hide Waits, StopsResumed;
  }

  lemma OtherWait(s: State, mid: State, q: nat, c: StopCall)
    requires q < |s.starts| && mid == s.(starts := s.starts[q := s.starts[q].(settled := true)], startPromise := None)
    requires Waits(s, c) && c !in s.starts[q].waiters
    ensures Waits(mid, c)
  {
    if exists r :: 0 <= r < |s.starts| && !s.starts[r].settled && c in s.starts[r].waiters {
      var r :| 0 <= r < |s.starts| && !s.starts[r].settled && c in s.starts[r].waiters;
      assert !mid.starts[r].settled && c in mid.starts[r].waiters;
    }
  }

  /** The creator of the settled stop goes on, then everyone who waited for it. */
  lemma StopSettledAccounts(s: State, p: nat)
    requires s.stopPromise.Some? && PromiseUnsettled(s) && Accounted(s, p)
    ensures var s' := AllResumed(Emptied(s), s.stopPromise.value.waiters); Accounted(s', p) && PromiseUnsettled(s')
  {
    var mid := s.(workerPromises := [], activeWorkers := 0, stopPromise := None);
    ReturnedAccounts(mid, s.stopPromise.value.creator, p);
    AllResumedAccount(Emptied(s), s.stopPromise.value.waiters, p);
    hide AllResumed, Returned;
  }

  lemma StepAccounts(s: State, e: Event)
    requires Enabled(s, e) && AllAccounted(s)
    ensures AllAccounted(Step(s, e))
  {
    forall p: nat ensures Accounted(Step(s, e), p) && PromiseUnsettled(Step(s, e)) {
      assert Accounted(s, p);
      match e
      case CallStart => StartCalledAccounts(s, p);
      case CallStop(n) => StopCalledAccounts(s, Outer(n), p);
      case Abort(n) =>
        StillWaits(s, s.(aborted := true, listening := false), Inner(p));
        StillWaits(s, s.(aborted := true), Inner(p));
        StopCalledAccounts(s.(aborted := true, listening := false), Outer(n), p);
      case StartSettles(q) => StartSettledAccounts(s, q, p);
      case StopSettles => StopSettledAccounts(s, p);
      case Worker(w, o) => StillWaits(s, Step(s, e), Inner(p));
      hide Waits, StopCalled, StartCalled, StartSettled, AllResumed, Emptied;
    }
    assert Accounted(Step(s, e), 0);
  }

  lemma StartCalledAccounts(s: State, p: nat)
    requires PromiseUnsettled(s) && Accounted(s, p)
    ensures Accounted(StartCalled(s), p) && PromiseUnsettled(StartCalled(s))
  {
    LaunchedAccounts(s, p);
    StillWaits(s, StartCalled(s), Inner(p));
    hide Waits, Launched;
  }

  /** In every run each start is done, or the stop it called on an aborted signal is still
      waiting for a stop under way or a start that has not settled. */
  lemma {:induction false} NoStartIsLeftHanging(size: nat, events: seq<Event>)
    requires ValidRun(Initial(size), events)
    ensures AllAccounted(Run(Initial(size), events))
    decreases |events|
  {
    hide Step, Enabled, Accounted;
    if events == [] {
      NothingToAccount(size);
    } else {
      var before := events[..|events| - 1];
      NoStartIsLeftHanging(size, before);
      StepAccounts(Run(Initial(size), before), events[|events| - 1]);
    }
  }

  lemma NothingToAccount(size: nat)
    ensures AllAccounted(Initial(size))
  {
  }

  // ---------------------------------------------------------------- a start on an aborted signal

  /** The stop that the start `p` called has gone on. */
  predicate StopReturned(s: State, p: nat) { exists i :: 0 <= i < |s.history| && s.history[i].call == Inner(p) }

  predicate DoneAfterStop(s: State, p: nat) { p < |s.starts| && s.starts[p].done ==> StopReturned(s, p) }

  /** Nothing is forgotten, and no start became done but by its stop's return. */
  lemma StaysReturned(s: State, s': State, p: nat)
    requires s.history <= s'.history && StopReturned(s, p)
    ensures StopReturned(s', p)
  {
    var i :| 0 <= i < |s.history| && s.history[i].call == Inner(p);
    assert s'.history[i] == s.history[i];
  }

  lemma ReturnedWaits(s: State, c: StopCall, p: nat)
    requires DoneAfterStop(s, p)
    ensures DoneAfterStop(Returned(s, c), p)
  {
    var s' := Returned(s, c);
    if StopReturned(s, p) { StaysReturned(s, s', p); }
    assert s'.history[|s.history|] == Return(c, |s.loops|);
  }

  lemma StopBodyWaits(s: State, c: StopCall, p: nat)
    requires DoneAfterStop(s, p)
    ensures DoneAfterStop(StopBody(s, c), p)
  {
    ReturnedWaits(s, c, p);
    hide Returned;
  }

  lemma StopCalledWaits(s: State, c: StopCall, p: nat)
    requires DoneAfterStop(s, p)
    ensures DoneAfterStop(StopCalled(s, c), p)
  {
    StopBodyWaits(s, c, p);
    hide StopBody;
  }

  lemma LaunchedWaits(s: State, p: nat)
    requires DoneAfterStop(s, p) && s.aborted
    ensures DoneAfterStop(Launched(s), p)
  {
    var added := s.(running := true, starts := s.starts + [StartPromise(false, false, [])]);
    StopCalledWaits(added, Inner(|s.starts|), p);
    hide StopCalled;
  }

  lemma {:induction false} StopsResumedWait(s: State, calls: seq<StopCall>, p: nat)
    requires DoneAfterStop(s, p)
    ensures DoneAfterStop(StopsResumed(s, calls), p)
    decreases |calls|
  {
    hide StopBody, DoneAfterStop;
    if calls != [] {
      StopsResumedWait(s, calls[..|calls| - 1], p);
      StopBodyWaits(StopsResumed(s, calls[..|calls| - 1]), calls[|calls| - 1], p);
    }
  }

  lemma {:induction false} AllResumedWait(s: State, ws: seq<Waiter>, p: nat)
    requires DoneAfterStop(s, p) && s.aborted
    ensures DoneAfterStop(AllResumed(s, ws), p)
    decreases |ws|
  {
    if ws != [] {
      var mid := AllResumed(s, ws[..|ws| - 1]);
      AllResumedWait(s, ws[..|ws| - 1], p);
      ResumedWaitersStayAborted(s, ws[..|ws| - 1]);
      LaunchedWaits(mid, p);
      if ws[|ws| - 1].Joiner? { ReturnedWaits(mid, ws[|ws| - 1].call, p); }
      hide Launched, Returned, DoneAfterStop;
    }
  }

  lemma AbortedStepWaits(s: State, e: Event, p: nat)
    requires Enabled(s, e) && (s.aborted || e.Abort?) && DoneAfterStop(s, p)
    ensures DoneAfterStop(Step(s, e), p)
  {
    match e
    case CallStart => LaunchedWaits(s, p); hide Launched;
    case CallStop(n) => StopCalledWaits(s, Outer(n), p); hide StopCalled;
    case Abort(n) =>
      StopCalledWaits(s.(aborted := true, listening := false), Outer(n), p);
      hide StopCalled;
    case StartSettles(q) =>
      StopsResumedWait(s.(starts := s.starts[q := s.starts[q].(settled := true)], startPromise := None), s.starts[q].waiters, p);
      hide StopsResumed;
    case StopSettles =>
      ReturnedWaits(s.(workerPromises := [], activeWorkers := 0, stopPromise := None), s.stopPromise.value.creator, p);
      hide Returned;
      AllResumedWait(Emptied(s), s.stopPromise.value.waiters, p);
      hide AllResumed;
    case Worker(w, o) =>
  }

  /** A start that begins after the signal was aborted is done only once the stop it called on
      itself has returned. */
  lemma {:induction false} AbortedStartAwaitsItsStop(s: State, n: nat, events: seq<Event>, p: nat)
    requires ValidRun(Step(s, Abort(n)), events) && p >= |s.starts|
    ensures var s' := Run(Step(s, Abort(n)), events); p < |s'.starts| && s'.starts[p].done ==> StopReturned(s', p)
    decreases |events|
  {
    AbortedStepWaits(s, Abort(n), p);
    hide Step, Enabled;
    if events != [] {
      var before := events[..|events| - 1];
      AbortedStartAwaitsItsStop(s, n, before, p);
      AbortedSpawnsNothing(s, n, before);
      AbortedStepWaits(Run(Step(s, Abort(n)), before), events[|events| - 1], p);
    }
  }
}

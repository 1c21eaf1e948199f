/** How the supervisor's worker loops poll: an empty or failed receive is followed by a sleep. */
module SupervisorPolling {
  import opened Options
  import opened SupervisorLifecycle

  predicate Resting(at: Loop) { at.Sleeping? || at.Woken? }

  /** Loop `w` received and got nothing, or the receive threw. */
  predicate IsEmptyPoll(s: State, e: Event, w: nat) {
    e.Worker? && e.w == w && w in s.loops && s.running && s.loops[w].Receiving? && (e.outcome.Empty? || e.outcome.Threw?)
  }

  /** Loop `w` goes on after a sleep. */
  predicate IsNapOver(s: State, e: Event, w: nat) {
    e.Worker? && e.w == w && w in s.loops && s.running && Resting(s.loops[w])
  }

  /** Loop `w` received a message. */
  predicate IsFullPoll(s: State, e: Event, w: nat) {
    e.Worker? && e.w == w && w in s.loops && s.running && s.loops[w].Receiving? && e.outcome.Message?
  }

  /** Loop `w` finished its message. */
  predicate IsDone(s: State, e: Event, w: nat) {
    e.Worker? && e.w == w && w in s.loops && s.running && s.loops[w].Working?
  }

  /** How often each of these happened to one loop. */
  datatype Tally = Tally(emptyPolls: nat, naps: nat, fullPolls: nat, done: nat)

  function Counted(t: Tally, s: State, e: Event, w: nat): Tally {
    if IsEmptyPoll(s, e, w) then t.(emptyPolls := t.emptyPolls + 1)
    else if IsNapOver(s, e, w) then t.(naps := t.naps + 1)
    else if IsFullPoll(s, e, w) then t.(fullPolls := t.fullPolls + 1)
    else if IsDone(s, e, w) then t.(done := t.done + 1)
    else t
  }

  function TallyOf(s: State, events: seq<Event>, w: nat): Tally
    requires ValidRun(s, events)
    decreases |events|
  {
    if events == [] then Tally(0, 0, 0, 0)
    else Counted(TallyOf(s, events[..|events| - 1], w), Run(s, events[..|events| - 1]), events[|events| - 1], w)
  }

  /** Loops keep their place, are woken or end; new ones are receiving. */
  predicate LoopsKept(s: State, s': State) {
    s.born <= s'.born
    && forall w :: w in s'.loops ==>
      (w >= s.born && s'.loops[w].Receiving?)
      || (w in s.loops && (s'.loops[w] == s.loops[w] || (s.loops[w].Sleeping? && s'.loops[w].Woken?)))
  }


  lemma KeptTwice(a: State, b: State, c: State)
    requires LoopsKept(a, b) && LoopsKept(b, c)
    ensures LoopsKept(a, c)
  {
  }

  lemma StopBodyKeeps(s: State, c: StopCall)
    ensures LoopsKept(s, StopBody(s, c))
  {
  }

  lemma LaunchKeeps(s: State)
    ensures LoopsKept(s, Launched(s))
  {
  }

  lemma {:induction false} StopsResumedKeep(s: State, calls: seq<StopCall>)
    ensures LoopsKept(s, StopsResumed(s, calls))
    decreases |calls|
  {
    if calls != [] {
      var mid := StopsResumed(s, calls[..|calls| - 1]);
      StopsResumedKeep(s, calls[..|calls| - 1]);
      StopBodyKeeps(mid, calls[|calls| - 1]);
      KeptTwice(s, mid, StopsResumed(s, calls));
    }
  }

  lemma ResumedKeeps(s: State, w: Waiter)
    ensures LoopsKept(s, Resumed(s, w))
  {
    LaunchKeeps(s);
    hide Launched;
  }

  lemma {:induction false} AllResumedKeep(s: State, ws: seq<Waiter>)
    ensures LoopsKept(s, AllResumed(s, ws))
    decreases |ws|
  {
    if ws != [] {
      var mid := AllResumed(s, ws[..|ws| - 1]);
      AllResumedKeep(s, ws[..|ws| - 1]);
      ResumedKeeps(mid, ws[|ws| - 1]);
      hide LoopsKept, Resumed;
      KeptTwice(s, mid, AllResumed(s, ws));
    }
  }

  lemma OtherStepsKeep(s: State, e: Event)
    requires Enabled(s, e) && !e.Worker?
    ensures LoopsKept(s, Step(s, e))
  {
    match e
    case CallStart => LaunchKeeps(s);
    case CallStop(n) => StopBodyKeeps(s, Outer(n));
    case Abort(n) => StopBodyKeeps(s.(aborted := true, listening := false), Outer(n));
    case StartSettles(p) =>
      StopsResumedKeep(s.(starts := s.starts[p := s.starts[p].(settled := true)], startPromise := None), s.starts[p].waiters);
    case StopSettles =>
      AllResumedKeep(Emptied(s), s.stopPromise.value.waiters);
  }

  /** What a loop's tally says about where it is. */
  predicate Fits(s: State, t: Tally, w: nat) {
    if w in s.loops then
      t.emptyPolls == t.naps + (if Resting(s.loops[w]) then 1 else 0) && t.fullPolls == t.done + (if s.loops[w].Working? then 1 else 0)
    else w >= s.born ==> t == Tally(0, 0, 0, 0)
  }

  lemma StepFits(s: State, e: Event, t: Tally, w: nat)
    requires Enabled(s, e) && Inv(s) && Fits(s, t, w)
    ensures Fits(Step(s, e), Counted(t, s, e, w), w)
  {
    if !e.Worker? {
      OtherStepsKeep(s, e);
      hide Step, Enabled;
    } else {
      WorkerFits(s, e.w, e.outcome, t, w);
      assert Step(s, e) == Worked(s, e.w, e.outcome);
      hide Step, Worked, Counted, Fits;
    }
  }

  lemma WorkerFits(s: State, at: nat, o: Outcome, t: Tally, w: nat)
    requires at in s.loops && Inv(s) && Fits(s, t, w)
    ensures Fits(Worked(s, at, o), Counted(t, s, Worker(at, o), w), w)
  {
  }

  /** In every run each loop has slept once for every receive that brought nothing or threw,
      before it receives again, and has finished one message for every one it received; but for
      the sleep or the message it is in. */
  lemma {:induction false} EveryEmptyPollIsSleptOff(size: nat, events: seq<Event>, w: nat)
    requires ValidRun(Initial(size), events)
    ensures var s, t := Run(Initial(size), events), TallyOf(Initial(size), events, w);
      Fits(s, t, w)
      && (w in s.loops ==>
           t.emptyPolls == t.naps + (if s.loops[w].Sleeping? || s.loops[w].Woken? then 1 else 0)
           && t.fullPolls == t.done + (if s.loops[w].Working? then 1 else 0))
    decreases |events|
  {
    hide Step, Enabled, Counted, Inv;
    if events != [] {
      var before := events[..|events| - 1];
      EveryEmptyPollIsSleptOff(size, before, w);
      RunKeepsInv(size, before);
      StepFits(Run(Initial(size), before), events[|events| - 1], TallyOf(Initial(size), before, w), w);
    }
  }
}

/**
  The life of the worker supervisor (apps/worker/worker-supervisor.ts): start, stop, abort
  and the worker loops, cut at their awaits.  A settled promise resumes its waiters in the
  order they came, before anything else runs.
*/
module SupervisorLifecycle {
  import opened Options

  /** Where a live worker loop waits.  `Woken`: its sleep is over but it has not gone on yet. */
  datatype Loop = Receiving | Working | Sleeping | Woken

  /** A call of stop: from outside or the abort listener, or from within the start numbered `p`. */
  datatype StopCall = Outer(n: nat) | Inner(p: nat)

  /** Who waits for a stop: a start, or a later stop. */
  datatype Waiter = Starter | Joiner(call: StopCall)

  datatype StartPromise = StartPromise(done: bool, settled: bool, waiters: seq<StopCall>)

  datatype StopPromise = StopPromise(creator: StopCall, waiters: seq<Waiter>)

  /** A stop call went on, with this many loops running. */
  datatype Return = Return(call: StopCall, live: nat)

  /** `size` is the number of loops a start spawns, `born` the number spawned so far. */
  datatype State = State(
    size: nat, running: bool, aborted: bool, listening: bool, activeWorkers: int, workerPromises: seq<nat>,
    loops: map<nat, Loop>, born: nat, starts: seq<StartPromise>, startPromise: Option<nat>, stopPromise: Option<StopPromise>,
    history: seq<Return>)

  datatype Outcome = Message | Empty | Threw | Done

  datatype Event =
    | CallStart
    | CallStop(n: nat)
    | Abort(n: nat)
    | StartSettles(p: nat)
    | StopSettles
    | Worker(w: nat, outcome: Outcome)

  function Initial(size: nat): State {
    State(size, false, false, false, 0, [], map[], 0, [], None, None, [])
  }

  // ---------------------------------------------------------------- stop

  function Returned(s: State, c: StopCall): State {
    var s' := s.(history := s.history + [Return(c, |s.loops|)]);
    if c.Inner? && c.p < |s.starts| then s'.(starts := s.starts[c.p := s.starts[c.p].(done := true)]) else s'
  }

  function Woke(loops: map<nat, Loop>): map<nat, Loop> {
    map w | w in loops :: if loops[w].Sleeping? then Woken else loops[w]
  }

  /** A stop call once no start is in its way. */
  function StopBody(s: State, c: StopCall): State {
    if s.stopPromise.Some? then
      s.(stopPromise := Some(s.stopPromise.value.(waiters := s.stopPromise.value.waiters + [Joiner(c)])))
    else if !s.running && s.workerPromises == [] then Returned(s, c)
    else s.(running := false, listening := false, loops := Woke(s.loops), stopPromise := Some(StopPromise(c, [])))
  }

  function StopCalled(s: State, c: StopCall): State {
    if s.startPromise.Some? && s.startPromise.value < |s.starts| then
      var p := s.startPromise.value;
      s.(starts := s.starts[p := s.starts[p].(waiters := s.starts[p].waiters + [c])])
    else StopBody(s, c)
  }

  // ---------------------------------------------------------------- start

  function Ids(first: nat, n: nat): seq<nat> { seq(n, i requires 0 <= i < n => first + i) }

  /** Fresh loops, one for each number from `first` on. */
  function Spawned(first: nat, n: nat): (loops: map<nat, Loop>)
    ensures |loops| == n && forall w :: w in loops <==> first <= w < first + n
    ensures forall w :: w in loops ==> loops[w] == Receiving
  {
    if n == 0 then map[] else Spawned(first, n - 1)[first + n - 1 := Receiving]
  }

  /** The body of start.  With the signal aborted it stops at once and spawns nothing;
      its stop call sees the start promise of before. */
  function Launched(s: State): State {
    var p := |s.starts|;
    if s.aborted then
      StopCalled(s.(running := true, starts := s.starts + [StartPromise(false, false, [])]), Inner(p)).(startPromise := Some(p))
    else
      s.(running := true, listening := true, workerPromises := Ids(s.born, s.size), activeWorkers := s.size,
         loops := s.loops + Spawned(s.born, s.size), born := s.born + s.size,
         starts := s.starts + [StartPromise(true, false, [])], startPromise := Some(p))
  }

  function StartCalled(s: State): State {
    if s.running || s.startPromise.Some? then s
    else if s.stopPromise.Some? then
      s.(stopPromise := Some(s.stopPromise.value.(waiters := s.stopPromise.value.waiters + [Starter])))
    else Launched(s)
  }

  // ---------------------------------------------------------------- settling promises

  function StopsResumed(s: State, calls: seq<StopCall>): State
    decreases |calls|
  {
    if calls == [] then s else StopBody(StopsResumed(s, calls[..|calls| - 1]), calls[|calls| - 1])
  }

  function Resumed(s: State, w: Waiter): State {
    match w
    case Starter => if s.running then s else Launched(s)
    case Joiner(c) => Returned(s, c)
  }

  function AllResumed(s: State, ws: seq<Waiter>): State
    decreases |ws|
  {
    if ws == [] then s else Resumed(AllResumed(s, ws[..|ws| - 1]), ws[|ws| - 1])
  }

  function StartSettled(s: State, p: nat): State
    requires p < |s.starts|
  {
    StopsResumed(s.(starts := s.starts[p := s.starts[p].(settled := true)], startPromise := None), s.starts[p].waiters)
  }

  /** All loops of the generation have ended; the creator goes on, then the waiters. */
  function Emptied(s: State): State
    requires s.stopPromise.Some?
  {
    Returned(s.(workerPromises := [], activeWorkers := 0, stopPromise := None), s.stopPromise.value.creator)
  }

  // ---------------------------------------------------------------- a worker loop

  /** From one await of a loop to its next; `None` when it leaves the loop. */
  function Advance(running: bool, at: Loop, o: Outcome): Option<Loop> {
    if !running then None
    else match at
      case Receiving => (match o case Message => Some(Working) case Empty => Some(Sleeping) case Threw => Some(Sleeping) case Done => Some(Receiving))
      case Working => Some(Receiving)
      case Sleeping => Some(Receiving)
      case Woken => Some(Receiving)
  }

  function Worked(s: State, w: nat, o: Outcome): State
    requires w in s.loops
  {
    match Advance(s.running, s.loops[w], o)
    case Some(next) => s.(loops := s.loops[w := next])
    case None => s.(loops := s.loops - {w}, activeWorkers := s.activeWorkers - 1)
  }

  // ---------------------------------------------------------------- runs

  predicate Enabled(s: State, e: Event) {
    match e
    case StartSettles(p) => p < |s.starts| && s.starts[p].done && !s.starts[p].settled
    case StopSettles => s.stopPromise.Some? && forall i :: 0 <= i < |s.workerPromises| ==> s.workerPromises[i] !in s.loops
    case Worker(w, _) => w in s.loops
    case _ => true
  }

  function Step(s: State, e: Event): State
    requires Enabled(s, e)
  {
    match e
    case CallStart => StartCalled(s)
    case CallStop(n) => StopCalled(s, Outer(n))
    case Abort(n) =>
      if s.listening then StopCalled(s.(aborted := true, listening := false), Outer(n)) else s.(aborted := true)
    case StartSettles(p) => StartSettled(s, p)
    case StopSettles => AllResumed(Emptied(s), s.stopPromise.value.waiters)
    case Worker(w, o) => Worked(s, w, o)
  }

  predicate ValidRun(s: State, events: seq<Event>)
    decreases |events|, 0
  {
    events == [] || (ValidRun(s, events[..|events| - 1]) && Enabled(Run(s, events[..|events| - 1]), events[|events| - 1]))
  }

  function Run(s: State, events: seq<Event>): State
    requires ValidRun(s, events)
    decreases |events|, 1
  {
    if events == [] then s else Step(Run(s, events[..|events| - 1]), events[|events| - 1])
  }

  // ---------------------------------------------------------------- the invariant

  /** Live loops are of the last generation spawned, `activeWorkers` counts them, they only
      sleep while nothing stops them, and a settled supervisor has none. */
  predicate Inv(s: State) {
    (forall w :: w in s.loops ==> w in s.workerPromises)
    && s.activeWorkers == |s.loops|
    && (forall w :: w in s.workerPromises ==> w < s.born)
    && (s.stopPromise.Some? && s.loops != map[] ==> !s.running)
    && (s.stopPromise.Some? && s.running ==> s.aborted)
    && (forall w :: w in s.loops && s.loops[w].Sleeping? ==> s.running && s.stopPromise.None?)
    && (s.stopPromise.None? && !s.running ==> s.workerPromises == [])
  }

  /** Loops are only running if nothing is stopping them. */
  predicate NoneStopping(s: State) { s.loops == map[] || (s.running && s.stopPromise.None?) }

  lemma WokeKeepsKeys(loops: map<nat, Loop>)
    ensures Woke(loops).Keys == loops.Keys && |Woke(loops)| == |loops|
  {
    assert Woke(loops).Keys == loops.Keys;
    assert |Woke(loops).Keys| == |Woke(loops)| && |loops.Keys| == |loops|;
  }

  lemma StopBodyKeepsInv(s: State, c: StopCall)
    requires Inv(s)
    ensures Inv(StopBody(s, c))
  {
    WokeKeepsKeys(s.loops);
  }

  lemma LaunchKeepsInv(s: State)
    requires Inv(s) && s.loops == map[] && (s.aborted || (s.stopPromise.None? && !s.running))
    ensures Inv(Launched(s))
    ensures NoneStopping(Launched(s))
    ensures !s.aborted ==> |Launched(s).loops| == s.size && Launched(s).running
  {
    if s.aborted {
      WokeKeepsKeys(s.loops);
    } else {
      var s' := Launched(s);
      assert s'.loops == Spawned(s.born, s.size);
      forall w | w in s'.loops ensures w in s'.workerPromises {
        assert s'.workerPromises[w - s.born] == w;
      }
    }
  }

  lemma StopCalledKeepsInv(s: State, c: StopCall)
    requires Inv(s)
    ensures Inv(StopCalled(s, c))
  {
    StopBodyKeepsInv(s, c);
  }

  lemma {:induction false} StopsResumedKeepInv(s: State, calls: seq<StopCall>)
    requires Inv(s)
    ensures Inv(StopsResumed(s, calls))
    decreases |calls|
  {
    if calls != [] {
      StopsResumedKeepInv(s, calls[..|calls| - 1]);
      StopBodyKeepsInv(StopsResumed(s, calls[..|calls| - 1]), calls[|calls| - 1]);
    }
  }

  // ---------------------------------------------------------------- what waiters find

  /** A start waits ahead of one of these waiters. */
  predicate StarterIn(ws: seq<Waiter>) { exists i :: 0 <= i < |ws| && ws[i].Starter? }

  /** What the waiters' stops return with: joined behind a waiting start they find its loops. */
  function Found(s: State, ws: seq<Waiter>): seq<Return>
    decreases |ws|
  {
    if ws == [] then []
    else
      var before, last := ws[..|ws| - 1], ws[|ws| - 1];
      Found(s, before) + if last.Joiner? then [Return(last.call, if StarterIn(before) && !s.aborted then s.size else 0)] else []
  }

  /** Resuming the waiters of a stop: the first start relaunches, unless aborted. */
  lemma {:induction false} WaitersResumed(s: State, ws: seq<Waiter>)
    requires Inv(s) && s.loops == map[] && s.stopPromise.None? && (!s.running || s.aborted)
    ensures var s' := AllResumed(s, ws);
      Inv(s') && NoneStopping(s') && s'.aborted == s.aborted && s'.size == s.size && s'.history == s.history + Found(s, ws)
      && (if StarterIn(ws) && !s.aborted then s'.running && s'.stopPromise.None? && |s'.loops| == s.size
          else s'.loops == map[] && (s.aborted || (!s'.running && s'.stopPromise.None?)))
    decreases |ws|
  {
    hide Inv, NoneStopping, StopBody, Launched, Returned, StarterIn;
    if ws == [] {
      NoStarterInNone();
      NoLoopsNoneStopping(s);
    } else {
      var before, last := ws[..|ws| - 1], ws[|ws| - 1];
      WaitersResumed(s, before);
      var mid := AllResumed(s, before);
      assert StarterIn(ws) <==> StarterIn(before) || last.Starter? by { StarterInMore(before, last, ws); }
      if last.Joiner? {
        ReturnedKeepsInv(mid, last.call);
      } else if !mid.running {
        if StarterIn(before) && !s.aborted {
          assert false;
        }
        LaunchKeepsInv(mid);
        LaunchIsSilent(mid);
      }
    }
  }

  lemma NoStarterInNone()
    ensures !StarterIn([])
  {
  }

  lemma StarterInMore(before: seq<Waiter>, last: Waiter, ws: seq<Waiter>)
    requires ws == before + [last]
    ensures StarterIn(ws) <==> StarterIn(before) || last.Starter?
  {
    assert ws[|before|] == last && forall k :: 0 <= k < |before| ==> ws[k] == before[k];
  }

  lemma NoLoopsNoneStopping(s: State)
    requires s.loops == map[]
    ensures NoneStopping(s)
  {
  }

  lemma ReturnedKeepsInv(s: State, c: StopCall)
    ensures Inv(s) ==> Inv(Returned(s, c))
    ensures NoneStopping(s) ==> NoneStopping(Returned(s, c))
    ensures var s' := Returned(s, c);
      s'.loops == s.loops && s'.running == s.running && s'.stopPromise == s.stopPromise && s'.aborted == s.aborted && s'.size == s.size
      && s'.history == s.history + [Return(c, |s.loops|)]
  {
  }

  lemma LaunchIsSilent(s: State)
    requires s.loops == map[]
    ensures var s' := Launched(s); s'.history == s.history && s'.aborted == s.aborted && s'.size == s.size
    ensures s.aborted ==> Launched(s).loops == map[]
    ensures !s.aborted ==> Launched(s).stopPromise == s.stopPromise
  {
  }

  lemma SettledIsEmpty(s: State)
    requires Inv(s) && Enabled(s, StopSettles)
    ensures s.loops == map[] && Inv(Emptied(s)) && (!s.running || s.aborted)
  {
    assert forall w :: w in s.loops ==> w in s.workerPromises;
    assert s.loops.Keys == {};
  }

  lemma WorkedKeepsInv(s: State, w: nat, o: Outcome)
    requires Inv(s) && w in s.loops
    ensures Inv(Worked(s, w, o))
  {
    assert |s.loops - {w}| == |s.loops| - 1 by {
      assert (s.loops - {w}).Keys == s.loops.Keys - {w};
      assert |(s.loops - {w}).Keys| == |s.loops - {w}| && |s.loops.Keys| == |s.loops|;
    }
    assert s.loops != map[];
  }

  lemma StepKeepsInv(s: State, e: Event)
    requires Inv(s) && Enabled(s, e)
    ensures Inv(Step(s, e))
  {
    hide Launched, StopBody, StopsResumed, AllResumed, Worked, Emptied;
    match e
    case CallStart =>
      if !s.running && s.startPromise.None? && s.stopPromise.None? {
        NothingRuns(s);
        LaunchKeepsInv(s);
      }
    case CallStop(n) => StopCalledKeepsInv(s, Outer(n));
    case Abort(n) =>
      StopCalledKeepsInv(s.(aborted := true, listening := false), Outer(n));
    case StartSettles(p) =>
      StopsResumedKeepInv(s.(starts := s.starts[p := s.starts[p].(settled := true)], startPromise := None), s.starts[p].waiters);
    case StopSettles =>
      SettledIsEmpty(s);
      EmptiedState(s);
      WaitersResumed(Emptied(s), s.stopPromise.value.waiters);
    case Worker(w, o) => WorkedKeepsInv(s, w, o);
  }

  lemma EmptiedState(s: State)
    requires s.stopPromise.Some?
    ensures var s' := Emptied(s);
      s'.loops == s.loops && s'.stopPromise.None? && s'.running == s.running && s'.aborted == s.aborted && s'.size == s.size
      && s'.history == s.history + [Return(s.stopPromise.value.creator, |s.loops|)]
  {
  }

  lemma NothingRuns(s: State)
    requires Inv(s) && !s.running && s.stopPromise.None?
    ensures s.loops == map[]
  {
    assert s.loops.Keys == {};
  }

  lemma {:induction false} RunKeepsInv(size: nat, events: seq<Event>)
    requires ValidRun(Initial(size), events)
    ensures Inv(Run(Initial(size), events))
    decreases |events|
  {
    hide Step, Enabled, Inv;
    if events == [] {
      InitialIsSound(size);
    } else {
      var before := events[..|events| - 1];
      RunKeepsInv(size, before);
      StepKeepsInv(Run(Initial(size), before), events[|events| - 1]);
    }
  }

  lemma InitialIsSound(size: nat)
    ensures Inv(Initial(size))
  {
  }

  // ---------------------------------------------------------------- main results

  /** In every run of starts, stops, aborts and worker steps: live loops are all of the last
      generation, are counted exactly, and none sleeps while a stop is under way. */
  lemma OneGenerationAtATime(size: nat, events: seq<Event>)
    requires ValidRun(Initial(size), events)
    ensures var s := Run(Initial(size), events);
      (forall w :: w in s.loops ==> w in s.workerPromises)
      && s.activeWorkers == |s.loops|
      && (s.stopPromise.Some? ==> forall w :: w in s.loops ==> !s.loops[w].Sleeping?)
      && (!s.running && s.stopPromise.None? ==> s.loops == map[])
  {
    RunKeepsInv(size, events);
    var s := Run(Initial(size), events);
    if !s.running && s.stopPromise.None? { NothingRuns(s); }
  }

  /** A launch never finds loops of an earlier generation. */
  lemma LaunchesOnlyWhenEmpty(size: nat, events: seq<Event>, e: Event)
    requires ValidRun(Initial(size), events) && Enabled(Run(Initial(size), events), e)
    requires Step(Run(Initial(size), events), e).born > Run(Initial(size), events).born
    ensures Run(Initial(size), events).loops == map[]
  {
    var s := Run(Initial(size), events);
    RunKeepsInv(size, events);
    match e
    case CallStart => NothingRuns(s);
    case StopSettles => SettledIsEmpty(s);
    case StartSettles(p) =>
      ResumingSpawnsNothing(s.(starts := s.starts[p := s.starts[p].(settled := true)], startPromise := None), s.starts[p].waiters);
      assert false;
    case _ =>
  }

  lemma {:induction false} ResumingSpawnsNothing(s: State, calls: seq<StopCall>)
    ensures StopsResumed(s, calls).born == s.born
    decreases |calls|
  {
    if calls != [] { ResumingSpawnsNothing(s, calls[..|calls| - 1]); }
  }

  /** While a stop drains, every step of a loop ends that loop. */
  lemma DrainingEndsLoops(size: nat, events: seq<Event>, w: nat, o: Outcome)
    requires ValidRun(Initial(size), events)
    requires var s := Run(Initial(size), events); s.stopPromise.Some? && w in s.loops
    ensures var s := Run(Initial(size), events); Step(s, Worker(w, o)).loops == s.loops - {w}
  {
    RunKeepsInv(size, events);
  }

  /** Which stops settling one stop lets return, and how many loops each finds: its creator
      none, and a joined one none unless a start was waiting ahead of it. */
  lemma SettlingReturns(size: nat, events: seq<Event>)
    requires ValidRun(Initial(size), events)
    requires Enabled(Run(Initial(size), events), StopSettles)
    ensures var s := Run(Initial(size), events);
      Step(s, StopSettles).history == s.history + [Return(s.stopPromise.value.creator, 0)] + Found(s, s.stopPromise.value.waiters)
  {
    var s := Run(Initial(size), events);
    RunKeepsInv(size, events);
    SettledIsEmpty(s);
    EmptiedState(s);
    hide AllResumed, Emptied, Inv, NoneStopping;
    WaitersResumed(Emptied(s), s.stopPromise.value.waiters);
    FoundDependsOn(s, Emptied(s), s.stopPromise.value.waiters);
  }

  lemma {:induction false} FoundDependsOn(s: State, u: State, ws: seq<Waiter>)
    requires s.size == u.size && s.aborted == u.aborted
    ensures Found(s, ws) == Found(u, ws)
    decreases |ws|
  {
    if ws != [] { FoundDependsOn(s, u, ws[..|ws| - 1]); }
  }

  predicate AllClean(rs: seq<Return>) { forall i :: 0 <= i < |rs| ==> rs[i].live == 0 }

  /** A stop that joined behind a waiting start. */
  predicate StopBehindStart(ws: seq<Waiter>) { exists i, j :: 0 <= i < j < |ws| && ws[i].Starter? && ws[j].Joiner? }

  lemma {:induction false} FoundCleanIff(s: State, ws: seq<Waiter>)
    ensures AllClean(Found(s, ws)) <==> s.aborted || s.size == 0 || !StopBehindStart(ws)
    decreases |ws|
  {
    if ws != [] {
      var before, last := ws[..|ws| - 1], ws[|ws| - 1];
      FoundCleanIff(s, before);
      OneMoreWaiter(before, last);
      assert before + [last] == ws;
      var tail := if last.Joiner? then [Return(last.call, if StarterIn(before) && !s.aborted then s.size else 0)] else [];
      AppendClean(Found(s, before), tail);
      assert AllClean(tail) <==> last.Joiner? && StarterIn(before) ==> s.aborted || s.size == 0;
    }
  }

  lemma OneMoreWaiter(before: seq<Waiter>, last: Waiter)
    ensures StopBehindStart(before + [last]) <==> StopBehindStart(before) || (last.Joiner? && StarterIn(before))
  {
    var ws := before + [last];
    assert ws[|before|] == last && forall k :: 0 <= k < |before| ==> ws[k] == before[k];
  }

  lemma AppendClean(a: seq<Return>, b: seq<Return>)
    ensures AllClean(a + b) <==> AllClean(a) && AllClean(b)
  {
    if AllClean(a + b) {
      assert forall i :: 0 <= i < |a| ==> (a + b)[i] == a[i];
      assert forall i :: 0 <= i < |b| ==> (a + b)[|a| + i] == b[i];
    }
  }

  /** This event lets a stop return while loops started before it was called run on. */
  predicate Swallows(s: State, e: Event) {
    e.StopSettles? && s.stopPromise.Some? && !s.aborted && s.size > 0 && StopBehindStart(s.stopPromise.value.waiters)
  }

  predicate NeverSwallows(s: State, events: seq<Event>)
    requires ValidRun(s, events)
    decreases |events|
  {
    events == [] || (NeverSwallows(s, events[..|events| - 1]) && !Swallows(Run(s, events[..|events| - 1]), events[|events| - 1]))
  }

  lemma OtherStepsReturnClean(s: State, e: Event)
    requires Inv(s) && Enabled(s, e) && !e.StopSettles?
    ensures s.history <= Step(s, e).history && AllClean(Step(s, e).history[|s.history|..])
  {
    hide Launched, StopBody, StopsResumed, AllResumed, Worked;
    match e
    case CallStart =>
      if !s.running && s.startPromise.None? && s.stopPromise.None? {
        NothingRuns(s);
        LaunchIsSilent(s);
      }
    case CallStop(n) => StopCallReturnsClean(s, Outer(n));
    case Abort(n) => StopCallReturnsClean(s.(aborted := true, listening := false), Outer(n));
    case StartSettles(p) =>
      var s1 := s.(starts := s.starts[p := s.starts[p].(settled := true)], startPromise := None);
      StopsReturnClean(s1, s.starts[p].waiters);
    case Worker(w, o) => WorkIsSilent(s, w, o);
  }

  lemma WorkIsSilent(s: State, w: nat, o: Outcome)
    requires w in s.loops
    ensures Worked(s, w, o).history == s.history
  {
  }

  lemma StopCallReturnsClean(s: State, c: StopCall)
    requires Inv(s)
    ensures s.history <= StopCalled(s, c).history && AllClean(StopCalled(s, c).history[|s.history|..])
  {
    StopReturnsClean(s, c);
  }

  lemma StopReturnsClean(s: State, c: StopCall)
    requires Inv(s)
    ensures s.history <= StopBody(s, c).history && AllClean(StopBody(s, c).history[|s.history|..])
  {
    if s.stopPromise.None? && !s.running && s.workerPromises == [] { NothingRuns(s); }
  }

  lemma {:induction false} StopsReturnClean(s: State, calls: seq<StopCall>)
    requires Inv(s)
    ensures s.history <= StopsResumed(s, calls).history && AllClean(StopsResumed(s, calls).history[|s.history|..])
    decreases |calls|
  {
    hide StopBody, Inv;
    if calls != [] {
      var mid := StopsResumed(s, calls[..|calls| - 1]);
      StopsReturnClean(s, calls[..|calls| - 1]);
      StopsResumedKeepInv(s, calls[..|calls| - 1]);
      StopReturnsClean(mid, calls[|calls| - 1]);
      var last := StopBody(mid, calls[|calls| - 1]).history;
      AppendClean(mid.history[|s.history|..], last[|mid.history|..]);
      assert last[|s.history|..] == mid.history[|s.history|..] + last[|mid.history|..];
    }
  }

  /** Every stop that returns finds no loop running exactly when no settling stop had a
      start waiting ahead of a joined stop. */
  lemma {:induction false} StopsReturnToSilenceIff(size: nat, events: seq<Event>)
    requires ValidRun(Initial(size), events)
    ensures AllClean(Run(Initial(size), events).history) <==> NeverSwallows(Initial(size), events)
    decreases |events|
  {
    if events != [] {
      var before, e := events[..|events| - 1], events[|events| - 1];
      var s := Run(Initial(size), before);
      hide Step, Inv, Found, AllClean, Enabled;
      StopsReturnToSilenceIff(size, before);
      RunKeepsInv(size, before);
      StepReturnsCleanIff(size, before, e);
    } else {
      assert Run(Initial(size), events).history == [];
    }
  }

  lemma StepReturnsCleanIff(size: nat, events: seq<Event>, e: Event)
    requires ValidRun(Initial(size), events) && Enabled(Run(Initial(size), events), e)
    ensures var s := Run(Initial(size), events);
      AllClean(Step(s, e).history) <==> AllClean(s.history) && !Swallows(s, e)
  {
    var s := Run(Initial(size), events);
    hide Run, ValidRun;
    RunKeepsInv(size, events);
    if e.StopSettles? {
      SettlingReturns(size, events);
      hide Step, Inv;
      var ws := s.stopPromise.value.waiters;
      FoundCleanIff(s, ws);
      AppendClean(s.history, [Return(s.stopPromise.value.creator, 0)]);
      AppendClean(s.history + [Return(s.stopPromise.value.creator, 0)], Found(s, ws));
    } else {
      OtherStepsReturnClean(s, e);
      hide Step, Inv;
      AppendClean(s.history, Step(s, e).history[|s.history|..]);
      assert Step(s, e).history == s.history + Step(s, e).history[|s.history|..];
    }
  }

  lemma OneMoreEvent(s: State, events: seq<Event>, e: Event)
    requires ValidRun(s, events) && Enabled(Run(s, events), e)
    ensures ValidRun(s, events + [e]) && Run(s, events + [e]) == Step(Run(s, events), e)
  {
    assert (events + [e])[..|events|] == events;
  }

  /** A stop called after a start, while both wait for an earlier stop, returns with the
      start's loop running, and nothing is left to stop it. */
  lemma JoinedStopIsSwallowed()
    ensures exists events :: SwallowsAStop(events)
  {
    var events := StoppingOne();
    hide Run, ValidRun;
    var s0 := Initial(1);
    OneMoreEvent(s0, events, CallStart);
    var es1 := events + [CallStart];
    var none: seq<Waiter> := [];
    assert none + [Starter] == [Starter] && [Starter] + [Joiner(Outer(2))] == [Starter, Joiner(Outer(2))];
    assert Run(s0, es1).stopPromise == Some(StopPromise(Outer(1), [Starter]));
    OneMoreEvent(s0, es1, CallStop(2));
    var es2 := es1 + [CallStop(2)];
    assert Run(s0, es2).stopPromise == Some(StopPromise(Outer(1), [Starter, Joiner(Outer(2))]));
    OneMoreEvent(s0, es2, Worker(0, Done));
    var es3 := es2 + [Worker(0, Done)];
    assert Run(s0, es3).loops == map[];
    SwallowAt(s0, es3);
  }

  /** One loop, being stopped. */
  lemma StoppingOne() returns (events: seq<Event>)
    ensures ValidRun(Initial(1), events)
    ensures Run(Initial(1), events)
      == State(1, false, false, false, 1, [0], map[0 := Receiving], 1, [StartPromise(true, true, [])], None, Some(StopPromise(Outer(1), [])), [])
  {
    hide Run, ValidRun;
    var s0 := Initial(1);
    NothingYet(s0);
    OneMoreEvent(s0, [], CallStart);
    var es1 := [] + [CallStart];
    assert Run(s0, es1) == State(1, true, false, true, 1, [0], map[0 := Receiving], 1, [StartPromise(true, false, [])], Some(0), None, []) by {
      assert Spawned(0, 1) == map[0 := Receiving] && Ids(0, 1) == [0];
    }
    OneMoreEvent(s0, es1, StartSettles(0));
    var es2 := es1 + [StartSettles(0)];
    assert Run(s0, es2) == State(1, true, false, true, 1, [0], map[0 := Receiving], 1, [StartPromise(true, true, [])], None, None, []) by {
      assert StopsResumed(Run(s0, es1).(starts := [StartPromise(true, true, [])], startPromise := None), []) == Run(s0, es2);
    }
    OneMoreEvent(s0, es2, CallStop(1));
    events := es2 + [CallStop(1)];
    assert Woke(map[0 := Receiving]) == map[0 := Receiving];
  }

  predicate SwallowsAStop(events: seq<Event>) {
    ValidRun(Initial(1), events)
    && var s := Run(Initial(1), events);
       s.running && s.stopPromise.None? && s.loops != map[] && Return(Outer(2), 1) in s.history
  }

  lemma NothingYet(s: State)
    ensures ValidRun(s, []) && Run(s, []) == s
  {
  }

  lemma SwallowAt(s0: State, events: seq<Event>)
    requires s0 == Initial(1) && ValidRun(s0, events)
    requires var s := Run(s0, events);
      s.loops == map[] && s.stopPromise == Some(StopPromise(Outer(1), [Starter, Joiner(Outer(2))])) && !s.running && !s.aborted && s.size == 1
      && forall i :: 0 <= i < |s.workerPromises| ==> s.workerPromises[i] !in s.loops
    ensures SwallowsAStop(events + [StopSettles])
  {
    hide Run, ValidRun;
    var s := Run(s0, events);
    OneMoreEvent(s0, events, StopSettles);
    var ws := s.stopPromise.value.waiters;
    var e := Emptied(s);
    var l := Launched(e);
    assert ws[..1] == [Starter] && ws[..1][..0] == [];
    assert AllResumed(e, []) == e;
    assert AllResumed(e, ws[..1]) == l;
    assert AllResumed(e, ws) == Returned(l, Outer(2));
    assert |l.loops| == 1 && Returned(l, Outer(2)).history[|l.history|] == Return(Outer(2), 1);
  }
}

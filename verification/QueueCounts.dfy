/** How often a failing message is invoked, and what goes wrong when acks or sends fail. */
module QueueCounts {
  import opened QueueRedelivery

  function Invocations(log: seq<Entry>, id: Id): nat {
    if log == [] then 0
    else Invocations(log[..|log| - 1], id) + if log[|log| - 1].Invocation? && log[|log| - 1].d.id == id then 1 else 0
  }

  function DeadLetters(log: seq<Entry>, id: Id): nat {
    if log == [] then 0
    else DeadLetters(log[..|log| - 1], id) + if log[|log| - 1].DeadLetter? && log[|log| - 1].d.id == id then 1 else 0
  }

  /** Acks of the message that failed and left it in the queue. */
  function KeptAcks(log: seq<Entry>, id: Id): nat {
    if log == [] then 0
    else KeptAcks(log[..|log| - 1], id) + if IsKeptAck(log[|log| - 1], id) then 1 else 0
  }

  predicate IsKeptAck(e: Entry, id: Id) { e.Ack? && !e.removed && e.d.id == id }

  predicate IsInvocation(e: Entry, id: Id) { e.Invocation? && e.d.id == id }

  lemma CountOneMore(log: seq<Entry>, e: Entry, id: Id)
    ensures Invocations(log + [e], id) == Invocations(log, id) + if IsInvocation(e, id) then 1 else 0
    ensures DeadLetters(log + [e], id) == DeadLetters(log, id) + if e.DeadLetter? && e.d.id == id then 1 else 0
    ensures KeptAcks(log + [e], id) == KeptAcks(log, id) + if IsKeptAck(e, id) then 1 else 0
  {
    assert (log + [e])[..|log|] == log;
  }

  /** Even a limit of zero allows the first delivery. */
  function Limit(cfg: Config): nat { if cfg.maxReceives == 0 then 1 else cfg.maxReceives }

  /** Message `id` fails every time, does not expire, and is not abandoned in hand.  Other
      messages, and the acks and sends of this one, may do anything. */
  predicate Steady(s: System, e: Event, id: Id)
    requires Enabled(s, e)
  {
    match e
    case InvokeReturns(c, ok) => s.phases[c].d.id == id ==> !ok
    case Expire(x) => x != id
    case Abandon(c) => !InHand(s.phases[c], id)
    case _ => true
  }

  predicate SteadyRun(s: System, events: seq<Event>, id: Id)
    requires ValidRun(s, events)
    decreases |events|
  {
    events == [] || (SteadyRun(s, events[..|events| - 1], id) && Steady(Run(s, events[..|events| - 1]), events[|events| - 1], id))
  }

  predicate InHand(p: Phase, id: Id) { !p.Idle? && p.d.id == id }

  function Offered(cfg: Config): nat { if cfg.hasDlq then 1 else 0 }

  /** Deliveries spent after `calls` invocations. */
  function SpentDeliveries(cfg: Config, calls: nat): nat { if calls < Limit(cfg) then 0 else calls - Limit(cfg) + 1 }

  /** A failed ack left the message in the queue, and it was invoked again. */
  predicate InvokedAgain(log: seq<Entry>, id: Id) {
    exists n, k :: 0 <= n < k < |log| && IsKeptAck(log[n], id) && IsInvocation(log[k], id)
  }

  lemma AgainOneMore(log: seq<Entry>, e: Entry, id: Id)
    ensures InvokedAgain(log + [e], id) <==> InvokedAgain(log, id) || (IsInvocation(e, id) && KeptAcks(log, id) > 0)
  {
    var longer := log + [e];
    assert longer[|log|] == e && forall i :: 0 <= i < |log| ==> longer[i] == log[i];
    if IsInvocation(e, id) && KeptAcks(log, id) > 0 {
      var n := KeptAckAt(log, id);
      assert IsKeptAck(longer[n], id) && IsInvocation(longer[|log|], id);
    }
    if InvokedAgain(longer, id) {
      var n, k :| 0 <= n < k < |longer| && IsKeptAck(longer[n], id) && IsInvocation(longer[k], id);
      if k == |log| { KeptAckCounts(log, id, n); }
    }
  }

  lemma {:induction false} KeptAckAt(log: seq<Entry>, id: Id) returns (n: nat)
    requires KeptAcks(log, id) > 0
    ensures n < |log| && IsKeptAck(log[n], id)
  {
    if IsKeptAck(log[|log| - 1], id) { n := |log| - 1; } else { n := KeptAckAt(log[..|log| - 1], id); }
  }

  lemma {:induction false} KeptAckCounts(log: seq<Entry>, id: Id, n: nat)
    requires n < |log| && IsKeptAck(log[n], id)
    ensures KeptAcks(log, id) > 0
  {
    if n < |log| - 1 { KeptAckCounts(log[..|log| - 1], id, n); }
  }

  /** Where the failing message stands, with the only consumer `c`. */
  ghost predicate OnSchedule(s: System, c: nat, id: Id) {
    s.configs.Keys == {c} == s.phases.Keys && id !in s.expired
    && Counted(s, s.configs[c], s.phases[c], id, Invocations(s.log, id), DeadLetters(s.log, id), KeptAcks(s.log, id))
    && (InvokedAgain(s.log, id) <==> Invocations(s.log, id) > Limit(s.configs[c]))
  }

  /** Every spent delivery was offered once; all but a last one in hand, or the one that
      removed the message, ended in an ack that kept it. */
  predicate Counted(s: System, cfg: Config, p: Phase, id: Id, calls: nat, offers: nat, kept: nat) {
    var spent := SpentDeliveries(cfg, calls);
    if id !in s.sent then id !in s.queue && !InHand(p, id) && calls == 0 && offers == 0 && kept == 0
    else if InHand(p, id) then
      id in s.queue && !s.queue[id].parked && p.d.attempts == s.queue[id].attempts
      && match p
         case Idle => true
         case Invoking(d) => calls + 1 == d.attempts && kept == spent && offers == Offered(cfg) * spent
         case AckingHandled(_) => false
         case DeadLettering(d) => calls == d.attempts >= Limit(cfg) && kept + 1 == spent && offers == kept && cfg.hasDlq
         case AckingSpent(d) => calls == d.attempts >= Limit(cfg) && kept + 1 == spent && offers == Offered(cfg) * spent
    else if id in s.queue then
      kept == spent && offers == Offered(cfg) * spent && s.queue[id].attempts == (if s.queue[id].parked then calls + 1 else calls)
    else calls >= Limit(cfg) && kept + 1 == spent && offers == Offered(cfg) * spent
  }

  lemma QueueStepStaysOnSchedule(s: System, e: Event, c: nat, id: Id)
    requires Enabled(s, e) && Steady(s, e, id) && OnSchedule(s, c, id) && !(e.InvokeReturns? || e.SendReturns? || e.AckReturns?)
    ensures OnSchedule(Step(s, e), c, id)
  {
    hide Invocations, DeadLetters, KeptAcks, InvokedAgain;
  }

  lemma LogStepStaysCounted(s: System, e: Event, c: nat, id: Id)
    requires Enabled(s, e) && Steady(s, e, id) && OnSchedule(s, c, id) && (e.InvokeReturns? || e.SendReturns? || e.AckReturns?)
    ensures var s' := Step(s, e);
      Counted(s', s'.configs[c], s'.phases[c], id, Invocations(s'.log, id), DeadLetters(s'.log, id), KeptAcks(s'.log, id))
  {
    hide Invocations, DeadLetters, KeptAcks, InvokedAgain;
    CountOneMore(s.log, Step(s, e).log[|s.log|], id);
  }

  lemma LogStepStaysOnSchedule(s: System, e: Event, c: nat, id: Id)
    requires Enabled(s, e) && Steady(s, e, id) && OnSchedule(s, c, id) && (e.InvokeReturns? || e.SendReturns? || e.AckReturns?)
    ensures OnSchedule(Step(s, e), c, id)
  {
    LogStepStaysCounted(s, e, c, id);
    InvocationMeansSpentBefore(s, e, c, id);
    hide Invocations, DeadLetters, KeptAcks, InvokedAgain, Counted, Steady;
    var entry := Step(s, e).log[|s.log|];
    AgainOneMore(s.log, entry, id);
    CountOneMore(s.log, entry, id);
  }

  lemma InvocationMeansSpentBefore(s: System, e: Event, c: nat, id: Id)
    requires Enabled(s, e) && OnSchedule(s, c, id) && (e.InvokeReturns? || e.SendReturns? || e.AckReturns?)
    ensures IsInvocation(Step(s, e).log[|s.log|], id) ==> (KeptAcks(s.log, id) > 0 <==> Invocations(s.log, id) >= Limit(s.configs[c]))
  {
    hide Invocations, DeadLetters, KeptAcks, InvokedAgain;
  }

  lemma {:induction false} RunStaysOnSchedule(s: System, events: seq<Event>, c: nat, id: Id)
    requires Fresh(s) && s.configs.Keys == {c}
    requires ValidRun(s, events) && SteadyRun(s, events, id)
    ensures OnSchedule(Run(s, events), c, id)
    decreases |events|
  {
    hide OnSchedule, Step, Enabled, Steady;
    if events == [] {
      FreshIsOnSchedule(s, c, id);
    } else {
      var before, e := events[..|events| - 1], events[|events| - 1];
      RunStaysOnSchedule(s, before, c, id);
      if e.InvokeReturns? || e.SendReturns? || e.AckReturns? {
        LogStepStaysOnSchedule(Run(s, before), e, c, id);
      } else {
        QueueStepStaysOnSchedule(Run(s, before), e, c, id);
      }
    }
  }

  lemma FreshIsOnSchedule(s: System, c: nat, id: Id)
    requires Fresh(s) && s.configs.Keys == {c}
    ensures OnSchedule(s, c, id)
  {
  }

  lemma {:induction false} SteadyIsNeverHandled(s: System, events: seq<Event>, id: Id)
    requires Fresh(s) && ValidRun(s, events) && SteadyRun(s, events, id)
    ensures NeverHandled(Run(s, events).log, id)
    decreases |events|
  {
    if events != [] {
      var before, e := events[..|events| - 1], events[|events| - 1];
      SteadyIsNeverHandled(s, before, id);
      LogGrows(Run(s, before), e, id);
    }
  }

  lemma LogGrows(s: System, e: Event, id: Id)
    requires Enabled(s, e) && Steady(s, e, id) && NeverHandled(s.log, id)
    ensures NeverHandled(Step(s, e).log, id)
  {
    assert forall n :: 0 <= n < |s.log| ==> Step(s, e).log[n] == s.log[n];
  }

  /** A failed ack at the receive limit left the message in the queue, and it was invoked again. */
  predicate AckFailedAtLimitThenInvoked(s: System, id: Id) {
    exists n, k :: 0 <= n < k < |s.log| && IsKeptAck(s.log[n], id) && AtLimit(s, s.log[n].d) && IsInvocation(s.log[k], id)
  }

  /** Acks of a message that was never handled happen at the limit. */
  lemma KeptAcksAreAtTheLimit(s: System, id: Id)
    requires LogJustified(s) && NeverHandled(s.log, id)
    ensures InvokedAgain(s.log, id) <==> AckFailedAtLimitThenInvoked(s, id)
  {
    forall n | 0 <= n < |s.log| && IsKeptAck(s.log[n], id) ensures AtLimit(s, s.log[n].d) {
      assert EntryJustified(s, s.log[..n], s.log[n]);
      assert forall k :: 0 <= k < n ==> s.log[..n][k] == s.log[k];
    }
  }

  /** A single consumer invokes an always-failing message at most as often as its limit and
      its failed acks that kept it add up to, and exactly that often once it is gone, with one
      offer to the dead-letter queue per spent delivery.  The limit is passed if and only if
      such an ack failed at the limit and the message was taken and invoked again. */
  lemma InvocationsAreLimitPlusKeptAcks(s: System, events: seq<Event>, c: nat, id: Id)
    requires Fresh(s) && s.configs.Keys == {c}
    requires ValidRun(s, events) && SteadyRun(s, events, id) && id in Run(s, events).sent
    ensures var s', limit := Run(s, events), Limit(s.configs[c]);
      var calls, offers, kept := Invocations(s'.log, id), DeadLetters(s'.log, id), KeptAcks(s'.log, id);
      calls <= limit + kept && offers <= Offered(s.configs[c]) * (kept + 1)
      && (id !in s'.queue ==> calls == limit + kept && offers == Offered(s.configs[c]) * (kept + 1))
      && (calls > limit <==> AckFailedAtLimitThenInvoked(s', id))
  {
    ConfigsStay(s, events);
    RunStaysOnSchedule(s, events, c, id);
    InvThroughRun(s, events);
    SteadyIsNeverHandled(s, events, id);
    KeptAcksAreAtTheLimit(Run(s, events), id);
    hide Run, ValidRun, SteadyRun, Invocations, DeadLetters, KeptAcks, InvokedAgain, AckFailedAtLimitThenInvoked, PhasesSound, QueueSound, GoneSound, LogJustified, NeverHandled;
  }

  /** So if no ack of it fails and keeps it, it is invoked exactly maxReceives times and offered
      once: never more often, and no less when it is gone; until then it can be received again
      once its lease is over. */
  lemma FailingMessageIsInvokedMaxReceivesTimes(s: System, events: seq<Event>, c: nat, id: Id)
    requires Fresh(s) && s.configs.Keys == {c} && Limit(s.configs[c]) <= s.providerMax
    requires ValidRun(s, events) && SteadyRun(s, events, id) && id in Run(s, events).sent && KeptAcks(Run(s, events).log, id) == 0
    ensures var s' := Run(s, events);
      Invocations(s'.log, id) <= Limit(s.configs[c]) && DeadLetters(s'.log, id) <= Offered(s.configs[c])
      && (id !in s'.queue ==> Invocations(s'.log, id) == Limit(s.configs[c]) && DeadLetters(s'.log, id) == Offered(s.configs[c]))
      && (id in s'.queue && c in s'.phases && s'.phases[c].Idle? && s'.queue[id].visibleAfter <= s'.now ==> Enabled(s', Take(c, id)))
  {
    ConfigsStay(s, events);
    RunStaysOnSchedule(s, events, c, id);
    ParkedIsPastTheProvider(s, events, id);
    hide Run, ValidRun, Invocations, DeadLetters, KeptAcks, InvokedAgain;
  }

  /** Parking happens beyond the provider's own limit. */
  lemma {:induction false} ParkedIsPastTheProvider(s: System, events: seq<Event>, id: Id)
    requires Fresh(s) && ValidRun(s, events)
    ensures var s' := Run(s, events); id in s'.queue && s'.queue[id].parked ==> s'.queue[id].attempts > s.providerMax
    decreases |events|
  {
    if events != [] {
      var before := events[..|events| - 1];
      ParkedIsPastTheProvider(s, before, id);
      ConfigsStay(s, before);
      ParkStep(Run(s, before), events[|events| - 1], id);
    }
  }

  lemma ParkStep(s: System, e: Event, id: Id)
    requires Enabled(s, e) && (id in s.queue && s.queue[id].parked ==> s.queue[id].attempts > s.providerMax)
    ensures var s' := Step(s, e); id in s'.queue && s'.queue[id].parked ==> s'.queue[id].attempts > s.providerMax
  {
  }

  // ---------------------------------------------------------------- when the hypotheses fail

  lemma OneMoreEvent(s: System, events: seq<Event>, e: Event)
    requires ValidRun(s, events) && Enabled(Run(s, events), e)
    ensures ValidRun(s, events + [e]) && Run(s, events + [e]) == Step(Run(s, events), e)
  {
    assert (events + [e])[..|events|] == events;
  }

  /** A system with one consumer and nothing sent yet. */
  function Lone(cfg: Config): System { System(map[], 0, 5, map[0 := cfg], map[0 := Idle], map[], {}, []) }

  /** One message taken at its first delivery. */
  lemma FirstTake(cfg: Config) returns (events: seq<Event>)
    ensures ValidRun(Lone(cfg), events)
    ensures var s := Run(Lone(cfg), events);
      s == Lone(cfg).(queue := map["m" := Message("b", 1, cfg.visibilityMs, false)], sent := map["m" := "b"], phases := map[0 := Invoking(Delivery(0, "m", "b", 1))])
  {
    var s0 := Lone(cfg);
    OneMoreEvent(s0, [], Send("m", "b", 0));
    OneMoreEvent(s0, [] + [Send("m", "b", 0)], Take(0, "m"));
    events := [] + [Send("m", "b", 0)] + [Take(0, "m")];
  }

  ghost predicate LosesAMessage(s: System, events: seq<Event>) {
    Fresh(s) && AllHaveDlq(s) && ValidRun(s, events) && IsGone(Run(s, events), "m") && !HandledOrDeadLettered(Run(s, events), "m")
  }

  /** A dead-letter send that fails is not repeated: the message is acknowledged and lost. */
  lemma FailedSendLosesTheMessage()
    ensures exists s, events :: LosesAMessage(s, events)
  {
    hide Run, ValidRun, HandledOrDeadLettered;
    var cfg := Config(1, true, false, 30000);
    var s0 := Lone(cfg);
    var es := FirstTake(cfg);
    OneMoreEvent(s0, es, InvokeReturns(0, false));
    OneMoreEvent(s0, es + [InvokeReturns(0, false)], SendReturns(0, false));
    OneMoreEvent(s0, es + [InvokeReturns(0, false)] + [SendReturns(0, false)], AckReturns(0, true, true));
    var events := es + [InvokeReturns(0, false)] + [SendReturns(0, false)] + [AckReturns(0, true, true)];
    var d := Delivery(0, "m", "b", 1);
    assert Run(s0, events).log == [Invocation(d, false), DeadLetter(d, false), Ack(d, true, true)];
    assert !HandledOrDeadLettered(Run(s0, events), "m") by { NeitherHappened(Run(s0, events), d); }
    assert LosesAMessage(s0, events);
  }

  lemma NeitherHappened(s: System, d: Delivery)
    requires s.log == [Invocation(d, false), DeadLetter(d, false), Ack(d, true, true)]
    ensures !HandledOrDeadLettered(s, d.id)
  {
  }

  ghost predicate HandlesAndDeadLetters(s: System, events: seq<Event>, d: Delivery) {
    Fresh(s) && ValidRun(s, events) && Run(s, events).log == [Invocation(d, true), Ack(d, false, false), DeadLetter(d, true)]
  }

  /** The supervisor guards the run and its ack together, so at the limit a handled message
      whose ack fails is dead-lettered too. */
  lemma HandledMessageCanBeDeadLettered()
    ensures exists s, events, d :: HandlesAndDeadLetters(s, events, d)
  {
    hide Run, ValidRun;
    var cfg := Config(1, true, true, 30000);
    var s0 := Lone(cfg);
    var es := FirstTake(cfg);
    OneMoreEvent(s0, es, InvokeReturns(0, true));
    OneMoreEvent(s0, es + [InvokeReturns(0, true)], AckReturns(0, false, false));
    OneMoreEvent(s0, es + [InvokeReturns(0, true)] + [AckReturns(0, false, false)], SendReturns(0, true));
    var events := es + [InvokeReturns(0, true)] + [AckReturns(0, false, false)] + [SendReturns(0, true)];
    assert HandlesAndDeadLetters(s0, events, Delivery(0, "m", "b", 1));
  }

  /** Outside the supervisor a dead-lettered delivery always failed. */
  lemma ConsumerDeadLettersOnlyFailures(s: System, events: seq<Event>, d: Delivery, ok: bool)
    requires Fresh(s) && ValidRun(s, events) && DeadLetter(d, ok) in Run(s, events).log
    requires d.consumer in s.configs ==> !s.configs[d.consumer].supervisor
    ensures Invocation(d, false) in Run(s, events).log && Invocation(d, true) !in Run(s, events).log
  {
    InvThroughRun(s, events);
    ConfigsStay(s, events);
    DeadLetteredFailed(Run(s, events), d, ok);
  }

  lemma DeadLetteredFailed(s: System, d: Delivery, ok: bool)
    requires LogJustified(s) && DeadLetter(d, ok) in s.log && (d.consumer in s.configs ==> !s.configs[d.consumer].supervisor)
    ensures Invocation(d, false) in s.log && Invocation(d, true) !in s.log
  {
    var n :| 0 <= n < |s.log| && s.log[n] == DeadLetter(d, ok);
    assert EntryJustified(s, s.log[..n], s.log[n]);
    var k :| 0 <= k < n && s.log[..n][k] == Invocation(d, false);
    forall j | 0 <= j < |s.log| ensures s.log[j] != Invocation(d, true) {
      InvokedOnce(s, j, k);
      InvokedOnce(s, k, j);
    }
  }

  lemma InvokedOnce(s: System, j: nat, k: nat)
    requires LogJustified(s) && j < |s.log| && k < |s.log|
    ensures j < k && s.log[j].Invocation? && s.log[k].Invocation? ==> s.log[j].d != s.log[k].d
  {
    if j < k {
      assert EntryJustified(s, s.log[..k], s.log[k]) && s.log[..k][j] == s.log[j];
    }
  }

  /** The delivery is not abandoned while its consumer has it in hand. */
  predicate NotAbandoned(s: System, events: seq<Event>, d: Delivery)
    requires ValidRun(s, events)
    decreases |events|
  {
    events == [] || (NotAbandoned(s, events[..|events| - 1], d) && Keeps(Run(s, events[..|events| - 1]), events[|events| - 1], d))
  }

  predicate Keeps(s: System, e: Event, d: Delivery)
    requires Enabled(s, e)
  {
    e.Abandon? ==> s.phases[e.c].Idle? || s.phases[e.c].d != d
  }

  /** Offered to the dead-letter queue, or about to be. */
  predicate OfferedOrDue(s: System, d: Delivery) {
    SentToDlq(s.log, d) || (d.consumer in s.phases && s.phases[d.consumer] == DeadLettering(d))
  }

  /** At the limit of a supervisor's worker with a dead-letter queue. */
  predicate SupervisedAtLimit(s: System, d: Delivery) {
    AtLimit(s, d) && s.configs[d.consumer].supervisor && s.configs[d.consumer].hasDlq
  }

  /** A failed ack at such a limit is followed up. */
  predicate FollowedUp(s: System, d: Delivery) {
    SupervisedAtLimit(s, d) && AckFailed(s.log, d) ==> OfferedOrDue(s, d)
  }

  lemma StepFollowsUp(s: System, e: Event, d: Delivery)
    requires Enabled(s, e) && Keeps(s, e, d) && PhasesSound(s) && FollowedUp(s, d)
    ensures FollowedUp(Step(s, e), d)
  {
    if e.AckReturns? {
      assert PhaseSound(s, e.c);
    }
  }

  lemma {:induction false} RunFollowsUp(s: System, events: seq<Event>, d: Delivery)
    requires Fresh(s) && ValidRun(s, events) && NotAbandoned(s, events, d)
    ensures FollowedUp(Run(s, events), d)
    decreases |events|
  {
    hide Step, Enabled, Keeps, FollowedUp, PhasesSound, QueueSound, LogJustified, GoneSound;
    if events == [] {
      NothingToFollow(s, d);
    } else {
      var before := events[..|events| - 1];
      RunFollowsUp(s, before, d);
      InvThroughRun(s, before);
      StepFollowsUp(Run(s, before), events[|events| - 1], d);
    }
  }

  lemma NothingToFollow(s: System, d: Delivery)
    requires Fresh(s)
    ensures FollowedUp(s, d)
  {
  }

  /** A handled delivery that its consumer does not abandon is offered to the dead-letter
      queue, now or as the next step, exactly when it was at the limit, its consumer is a
      supervisor's worker with a dead-letter queue, and an ack of it failed. */
  lemma HandledIsDeadLetteredIff(s: System, events: seq<Event>, d: Delivery)
    requires Fresh(s) && ValidRun(s, events) && NotAbandoned(s, events, d) && Invocation(d, true) in Run(s, events).log
    ensures var s' := Run(s, events);
      OfferedOrDue(s', d) <==> SupervisedAtLimit(s', d) && AckFailed(s'.log, d)
  {
    InvThroughRun(s, events);
    RunFollowsUp(s, events, d);
    var s' := Run(s, events);
    hide Run, ValidRun, NotAbandoned;
    if OfferedOrDue(s', d) { OfferedWhenHandled(s', d); }
  }

  /** Abandoned or not, a handled delivery is offered only after a failed ack at such a limit. */
  lemma OfferedWhenHandled(s: System, d: Delivery)
    requires PhasesSound(s) && LogJustified(s) && Invocation(d, true) in s.log && OfferedOrDue(s, d)
    ensures SupervisedAtLimit(s, d) && AckFailed(s.log, d)
  {
    var k :| 0 <= k < |s.log| && s.log[k] == Invocation(d, true);
    forall j | 0 <= j < |s.log| ensures s.log[j] != Invocation(d, false) {
      InvokedOnce(s, j, k);
      InvokedOnce(s, k, j);
    }
    if SentToDlq(s.log, d) {
      var n :| 0 <= n < |s.log| && (s.log[n] == DeadLetter(d, true) || s.log[n] == DeadLetter(d, false));
      assert EntryJustified(s, s.log[..n], s.log[n]);
      assert forall x :: x in s.log[..n] ==> x in s.log;
    } else {
      assert PhaseSound(s, d.consumer);
    }
  }

  ghost predicate InvokesBeyondTheLimit(s: System, events: seq<Event>) {
    Fresh(s) && ValidRun(s, events) && s.configs.Keys == {0} && Invocations(Run(s, events).log, "m") > Limit(s.configs[0])
  }

  /** An ack that fails leaves the message to be received and invoked beyond the limit. */
  lemma FailedAckInvokesBeyondTheLimit()
    ensures exists s, events :: InvokesBeyondTheLimit(s, events)
  {
    hide Run, ValidRun, Invocations;
    var cfg := Config(1, false, false, 30000);
    var s0 := Lone(cfg);
    var es := FirstTake(cfg);
    OneMoreEvent(s0, es, InvokeReturns(0, false));
    var es1 := es + [InvokeReturns(0, false)];
    OneMoreEvent(s0, es1, AckReturns(0, false, false));
    var d, d2 := Delivery(0, "m", "b", 1), Delivery(0, "m", "b", 2);
    var es2 := es1 + [AckReturns(0, false, false)];
    assert Run(s0, es2).log == [Invocation(d, false), Ack(d, false, false)];
    TakenAgain(s0, es2);
    var events := es2 + [Tick(30000)] + [Take(0, "m")] + [InvokeReturns(0, false)];
    assert Run(s0, events).log == [Invocation(d, false), Ack(d, false, false), Invocation(d2, false)];
    TwoInvocations(d, d2);
    assert s0.configs.Keys == {0} && Fresh(s0);
    assert InvokesBeyondTheLimit(s0, events);
  }

  /** Once the lease of the first delivery is over the message is taken and fails again. */
  lemma TakenAgain(s0: System, es: seq<Event>)
    requires ValidRun(s0, es)
    requires var s := Run(s0, es);
      Has(s, 0) && s.phases[0].Idle? && s.now <= 30000 && s.providerMax > 1 && "m" in s.queue && s.queue["m"] == Message("b", 1, 30000, false)
    ensures var events := es + [Tick(30000)] + [Take(0, "m")] + [InvokeReturns(0, false)];
      ValidRun(s0, events) && Run(s0, events).log == Run(s0, es).log + [Invocation(Delivery(0, "m", "b", 2), false)]
  {
    hide Run, ValidRun;
    OneMoreEvent(s0, es, Tick(30000));
    OneMoreEvent(s0, es + [Tick(30000)], Take(0, "m"));
    OneMoreEvent(s0, es + [Tick(30000)] + [Take(0, "m")], InvokeReturns(0, false));
  }

  lemma TwoInvocations(d: Delivery, d2: Delivery)
    requires d.id == d2.id == "m"
    ensures Invocations([Invocation(d, false), Ack(d, false, false), Invocation(d2, false)], "m") == 2
  {
    var none: seq<Entry> := [];
    var one := none + [Invocation(d, false)];
    var two := one + [Ack(d, false, false)];
    CountOneMore(none, Invocation(d, false), "m");
    CountOneMore(one, Ack(d, false, false), "m");
    CountOneMore(two, Invocation(d2, false), "m");
    assert two + [Invocation(d2, false)] == [Invocation(d, false), Ack(d, false, false), Invocation(d2, false)];
  }
}

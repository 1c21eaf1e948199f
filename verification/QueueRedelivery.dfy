/**
  Queue redelivery (apps/worker/queue-consumer.ts, apps/worker/worker-supervisor.ts,
  providers/queues/sqlite-queue-provider.ts): consumers receive under a lease, invoke,
  acknowledge or dead-letter.  Each await is an event; handlers, sends and acks may
  fail, leases may run out, consumers may stop anywhere.
*/
module QueueRedelivery {

  type Id = string

  datatype Message = Message(body: string, attempts: nat, visibleAfter: int, parked: bool)

  /** One receipt of a message: no other receipt of it has the same attempt number. */
  datatype Delivery = Delivery(consumer: nat, id: Id, body: string, attempts: nat)

  /** The supervisor's workers also dead-letter when only the ack failed. */
  datatype Config = Config(maxReceives: nat, hasDlq: bool, supervisor: bool, visibilityMs: nat)

  datatype Phase =
    | Idle
    | Invoking(d: Delivery)
    | AckingHandled(d: Delivery)
    | DeadLettering(d: Delivery)
    | AckingSpent(d: Delivery)

  /** What happened to deliveries, in order. */
  datatype Entry =
    | Invocation(d: Delivery, ok: bool)
    | DeadLetter(d: Delivery, ok: bool)
    | Ack(d: Delivery, ok: bool, removed: bool)

  datatype System = System(
    queue: map<Id, Message>, now: int, providerMax: nat,
    configs: map<nat, Config>, phases: map<nat, Phase>,
    sent: map<Id, string>, expired: set<Id>, log: seq<Entry>)

  datatype Event =
    | Send(id: Id, body: string, visibleAfter: int)
    | Tick(now: int)
    | Take(c: nat, id: Id)
    | Park(c: nat, id: Id)
    | InvokeReturns(c: nat, ok: bool)
    | SendReturns(c: nat, ok: bool)
    | AckReturns(c: nat, ok: bool, removed: bool)
    | Expire(id: Id)
    | Abandon(c: nat)

  // ---------------------------------------------------------------- one consumer's steps

  /** A spent delivery goes to the dead-letter queue first, if there is one. */
  function Spent(cfg: Config, d: Delivery): Phase {
    if cfg.hasDlq then DeadLettering(d) else AckingSpent(d)
  }

  function AfterInvoke(cfg: Config, d: Delivery, ok: bool): Phase {
    if ok then AckingHandled(d) else if d.attempts >= cfg.maxReceives then Spent(cfg, d) else Idle
  }

  function AfterAck(cfg: Config, p: Phase, ok: bool): Phase {
    if p.AckingHandled? && !ok && cfg.supervisor && p.d.attempts >= cfg.maxReceives then Spent(cfg, p.d) else Idle
  }

  // ---------------------------------------------------------------- the system's steps

  predicate Visible(m: Message, now: int) { m.visibleAfter <= now && !m.parked }

  predicate Has(s: System, c: nat) { c in s.phases && c in s.configs }

  /** A throwing ack may or may not have removed the message. */
  predicate Enabled(s: System, e: Event) {
    match e
    case Send(id, _, _) => id !in s.sent
    case Tick(now) => s.now <= now
    case Take(c, id) => Has(s, c) && s.phases[c].Idle? && id in s.queue && Visible(s.queue[id], s.now) && s.queue[id].attempts < s.providerMax
    case Park(c, id) => Has(s, c) && s.phases[c].Idle? && id in s.queue && Visible(s.queue[id], s.now) && s.queue[id].attempts >= s.providerMax
    case InvokeReturns(c, _) => Has(s, c) && s.phases[c].Invoking?
    case SendReturns(c, _) => Has(s, c) && s.phases[c].DeadLettering?
    case AckReturns(c, ok, removed) => Has(s, c) && (s.phases[c].AckingHandled? || s.phases[c].AckingSpent?) && (ok ==> removed)
    case Expire(id) => id in s.queue
    case Abandon(c) => Has(s, c)
  }

  function Step(s: System, e: Event): System
    requires Enabled(s, e)
  {
    match e
    case Send(id, body, at) => s.(queue := s.queue[id := Message(body, 0, at, false)], sent := s.sent[id := body])
    case Tick(now) => s.(now := now)
    case Take(c, id) =>
      var m := s.queue[id];
      s.(queue := s.queue[id := m.(attempts := m.attempts + 1, visibleAfter := s.now + s.configs[c].visibilityMs)],
         phases := s.phases[c := Invoking(Delivery(c, id, m.body, m.attempts + 1))])
    case Park(_, id) =>
      s.(queue := s.queue[id := s.queue[id].(attempts := s.queue[id].attempts + 1, visibleAfter := 0, parked := true)])
    case InvokeReturns(c, ok) =>
      var d := s.phases[c].d;
      s.(phases := s.phases[c := AfterInvoke(s.configs[c], d, ok)], log := s.log + [Invocation(d, ok)])
    case SendReturns(c, ok) =>
      var d := s.phases[c].d;
      s.(phases := s.phases[c := AckingSpent(d)], log := s.log + [DeadLetter(d, ok)])
    case AckReturns(c, ok, removed) =>
      var p := s.phases[c];
      s.(queue := if removed then s.queue - {p.d.id} else s.queue,
         phases := s.phases[c := AfterAck(s.configs[c], p, ok)], log := s.log + [Ack(p.d, ok, removed)])
    case Expire(id) => s.(queue := s.queue - {id}, expired := s.expired + {id})
    case Abandon(c) => s.(phases := s.phases[c := Idle])
  }

  predicate ValidRun(s: System, events: seq<Event>)
    decreases |events|, 0
  {
    events == [] || (ValidRun(s, events[..|events| - 1]) && Enabled(Run(s, events[..|events| - 1]), events[|events| - 1]))
  }

  function Run(s: System, events: seq<Event>): System
    requires ValidRun(s, events)
    decreases |events|, 1
  {
    if events == [] then s else Step(Run(s, events[..|events| - 1]), events[|events| - 1])
  }

  predicate Fresh(s: System) {
    s.queue == map[] && s.sent == map[] && s.expired == {} && s.log == []
    && s.phases.Keys == s.configs.Keys && forall c :: c in s.phases ==> s.phases[c].Idle?
  }

  // ---------------------------------------------------------------- what every step keeps

  predicate AtLimit(s: System, d: Delivery) {
    d.consumer in s.configs && d.attempts >= s.configs[d.consumer].maxReceives
  }

  predicate Acked(log: seq<Entry>, d: Delivery) { Ack(d, true, true) in log }

  predicate AckFailed(log: seq<Entry>, d: Delivery) { Ack(d, false, true) in log || Ack(d, false, false) in log }

  predicate SentToDlq(log: seq<Entry>, d: Delivery) { DeadLetter(d, true) in log || DeadLetter(d, false) in log }

  /** Why this delivery may be acknowledged: it was handled, or it failed at the limit and
      was offered to the dead-letter queue if there is one. */
  predicate MayAck(s: System, log: seq<Entry>, d: Delivery) {
    Invocation(d, true) in log
    || (AtLimit(s, d) && Invocation(d, false) in log && (s.configs[d.consumer].hasDlq ==> SentToDlq(log, d)))
  }

  /** Why this delivery may be dead-lettered, not having been acknowledged. */
  predicate MayDeadLetter(s: System, log: seq<Entry>, d: Delivery) {
    AtLimit(s, d) && s.configs[d.consumer].hasDlq && !Acked(log, d)
    && (Invocation(d, false) in log
        || (s.configs[d.consumer].supervisor && Invocation(d, true) in log && AckFailed(log, d)))
  }

  ghost predicate EntryJustified(s: System, log: seq<Entry>, e: Entry) {
    match e
    case Invocation(d, _) => forall ok :: Invocation(d, ok) !in log
    case DeadLetter(d, _) => MayDeadLetter(s, log, d) && !SentToDlq(log, d)
    case Ack(d, ok, removed) => MayAck(s, log, d) && (ok ==> removed)
  }

  ghost predicate LogJustified(s: System) {
    forall n :: 0 <= n < |s.log| ==> EntryJustified(s, s.log[..n], s.log[n])
  }

  predicate Untouched(log: seq<Entry>, d: Delivery) { forall n :: 0 <= n < |log| ==> log[n].d != d }

  predicate PhaseSound(s: System, c: nat)
    requires Has(s, c)
  {
    match s.phases[c]
    case Idle => true
    case Invoking(d) => Mine(s, c, d) && Untouched(s.log, d)
    case AckingHandled(d) =>
      Mine(s, c, d) && Invocation(d, true) in s.log && !Acked(s.log, d) && !SentToDlq(s.log, d)
    case DeadLettering(d) => Mine(s, c, d) && MayDeadLetter(s, s.log, d) && !SentToDlq(s.log, d)
    case AckingSpent(d) =>
      Mine(s, c, d) && MayAck(s, s.log, d) && !Acked(s.log, d) && (s.configs[c].hasDlq ==> SentToDlq(s.log, d))
  }

  predicate Mine(s: System, c: nat, d: Delivery) {
    d.consumer == c && d.id in s.sent && d.body == s.sent[d.id] && (d.id in s.queue ==> d.attempts <= s.queue[d.id].attempts)
  }

  ghost predicate PhasesSound(s: System) {
    s.phases.Keys == s.configs.Keys && forall c :: c in s.phases ==> PhaseSound(s, c)
  }

  /** The queue holds sent messages with their bodies; attempt numbers of the past are used up. */
  ghost predicate QueueSound(s: System) {
    (forall id :: id in s.queue ==> id in s.sent && s.queue[id].body == s.sent[id])
    && forall n :: 0 <= n < |s.log| ==> LoggedEarlier(s, s.log[n].d)
  }

  predicate LoggedEarlier(s: System, d: Delivery) {
    d.id in s.sent && d.body == s.sent[d.id] && (d.id in s.queue ==> d.attempts <= s.queue[d.id].attempts)
  }

  /** A message that is neither queued nor expired was removed by an ack. */
  ghost predicate GoneSound(s: System) {
    forall id :: id in s.sent ==> id in s.queue || id in s.expired || WasRemoved(s.log, id)
  }

  ghost predicate WasRemoved(log: seq<Entry>, id: Id) { exists n :: 0 <= n < |log| && Removes(log[n], id) }

  predicate Removes(e: Entry, id: Id) { e.Ack? && e.removed && e.d.id == id }

  ghost predicate Inv(s: System) { PhasesSound(s) && QueueSound(s) && LogJustified(s) && GoneSound(s) }

  /** A consumer's deliveries and their entries are its own. */
  lemma OthersStaySound(s: System, e: Event, c: nat)
    requires Enabled(s, e) && Has(s, c) && Has(Step(s, e), c) && PhaseSound(s, c) && QueueSound(s)
    requires Step(s, e).phases[c] == s.phases[c]
    requires Step(s, e).log == s.log || (Step(s, e).log == s.log + [Step(s, e).log[|s.log|]] && Step(s, e).log[|s.log|].d.consumer != c)
    ensures PhaseSound(Step(s, e), c)
  {
  }

  lemma ActorStaysSound(s: System, e: Event)
    requires Enabled(s, e) && (e.InvokeReturns? || e.SendReturns? || e.AckReturns?) && PhaseSound(s, e.c)
    ensures PhaseSound(Step(s, e), e.c)
  {
  }

  lemma TakerStaysSound(s: System, c: nat, id: Id)
    requires Enabled(s, Take(c, id)) && QueueSound(s)
    ensures PhaseSound(Step(s, Take(c, id)), c)
  {
    forall n | 0 <= n < |s.log| ensures s.log[n].d != Step(s, Take(c, id)).phases[c].d {
      assert LoggedEarlier(s, s.log[n].d);
    }
  }

  lemma StepKeepsPhases(s: System, e: Event)
    requires Enabled(s, e) && PhasesSound(s) && QueueSound(s)
    ensures PhasesSound(Step(s, e))
  {
    hide QueueSound, PhaseSound;
    var s' := Step(s, e);
    forall c | c in s'.phases ensures PhaseSound(s', c) {
      assert PhaseSound(s, c);
      if (e.InvokeReturns? || e.SendReturns? || e.AckReturns?) && e.c == c {
        ActorStaysSound(s, e);
      } else if e.Take? && e.c == c {
        TakerStaysSound(s, c, e.id);
      } else if e.Abandon? && e.c == c {
        IdleIsSound(s', c);
      } else {
        if e.InvokeReturns? || e.SendReturns? || e.AckReturns? { OwnsItsDelivery(s, e.c); }
        OthersStaySound(s, e, c);
      }
    }
  }

  lemma IdleIsSound(s: System, c: nat)
    requires Has(s, c) && s.phases[c].Idle?
    ensures PhaseSound(s, c)
  {
  }

  lemma OwnsItsDelivery(s: System, c: nat)
    requires PhasesSound(s) && Has(s, c) && !s.phases[c].Idle?
    ensures s.phases[c].d.consumer == c
  {
    assert PhaseSound(s, c);
  }

  lemma StepKeepsQueue(s: System, e: Event)
    requires Enabled(s, e) && PhasesSound(s) && QueueSound(s)
    ensures QueueSound(Step(s, e))
  {
    var s' := Step(s, e);
    forall n | 0 <= n < |s'.log| ensures LoggedEarlier(s', s'.log[n].d) {
      if n < |s.log| {
        assert s'.log[n] == s.log[n] && LoggedEarlier(s, s.log[n].d);
      } else {
        assert PhaseSound(s, e.c);
      }
    }
  }

  lemma StepKeepsLog(s: System, e: Event)
    requires Enabled(s, e) && PhasesSound(s) && LogJustified(s)
    ensures LogJustified(Step(s, e))
  {
    var s' := Step(s, e);
    StepKeepsConfigs(s, e);
    OneMoreEntry(s, e);
    if |s'.log| > |s.log| { NewEntryJustified(s, e); }
    hide Step, Enabled, EntryJustified, PhasesSound;
    forall n | 0 <= n < |s'.log| ensures EntryJustified(s', s'.log[..n], s'.log[n]) {
      if n < |s.log| {
        assert s'.log[..n] == s.log[..n];
        SameConfigs(s, s', s.log[..n], s.log[n]);
      } else {
        assert s'.log[..n] == s.log;
      }
    }
  }

  lemma SameConfigs(s: System, s': System, log: seq<Entry>, entry: Entry)
    requires s'.configs == s.configs
    ensures EntryJustified(s', log, entry) <==> EntryJustified(s, log, entry)
  {
  }

  lemma OneMoreEntry(s: System, e: Event)
    requires Enabled(s, e)
    ensures var log := Step(s, e).log; log == s.log || (|log| == |s.log| + 1 && log[..|s.log|] == s.log)
    ensures |Step(s, e).log| > |s.log| ==> e.InvokeReturns? || e.SendReturns? || e.AckReturns?
  {
  }

  lemma NewEntryJustified(s: System, e: Event)
    requires Enabled(s, e) && PhasesSound(s) && (e.InvokeReturns? || e.SendReturns? || e.AckReturns?)
    ensures EntryJustified(Step(s, e), s.log, Step(s, e).log[|s.log|])
  {
    assert PhaseSound(s, e.c);
    hide PhasesSound;
    SameConfigs(s, Step(s, e), s.log, Step(s, e).log[|s.log|]);
  }

  lemma StepKeepsGone(s: System, e: Event)
    requires Enabled(s, e) && GoneSound(s)
    ensures GoneSound(Step(s, e))
  {
    var s' := Step(s, e);
    forall id | id in s'.sent ensures id in s'.queue || id in s'.expired || WasRemoved(s'.log, id) {
      if id in s.sent && WasRemoved(s.log, id) {
        var n :| 0 <= n < |s.log| && Removes(s.log[n], id);
        assert s'.log[n] == s.log[n];
      }
      if e.AckReturns? && e.removed && s.phases[e.c].d.id == id {
        assert Removes(s'.log[|s.log|], id);
      }
    }
  }

  lemma {:induction false} InvThroughRun(s: System, events: seq<Event>)
    requires Fresh(s) && ValidRun(s, events)
    ensures Inv(Run(s, events))
    decreases |events|
  {
    if events != [] {
      var before, e := events[..|events| - 1], events[|events| - 1];
      InvThroughRun(s, before);
      StepKeepsPhases(Run(s, before), e);
      StepKeepsQueue(Run(s, before), e);
      StepKeepsLog(Run(s, before), e);
      StepKeepsGone(Run(s, before), e);
    }
  }

  lemma StepKeepsConfigs(s: System, e: Event)
    requires Enabled(s, e)
    ensures Step(s, e).configs == s.configs && Step(s, e).providerMax == s.providerMax
  {
  }

  lemma {:induction false} ConfigsStay(s: System, events: seq<Event>)
    requires ValidRun(s, events)
    ensures Run(s, events).configs == s.configs && Run(s, events).providerMax == s.providerMax
    decreases |events|
  {
    hide Enabled, Step;
    if events != [] {
      ConfigsStay(s, events[..|events| - 1]);
      StepKeepsConfigs(Run(s, events[..|events| - 1]), events[|events| - 1]);
    }
  }

  // ---------------------------------------------------------------- leases

  predicate Picks(e: Event, id: Id) { (e.Take? || e.Park?) && e.id == id }

  /** A message taken with a lease is not received again until the lease is over: as long as the
      clock is short of it, no event of any run picks the message, and it becomes visible exactly then. */
  lemma {:induction false} LeaseHolds(s: System, c: nat, id: Id, events: seq<Event>)
    requires Enabled(s, Take(c, id)) && id in s.sent && ValidRun(Step(s, Take(c, id)), events)
    requires var s' := Run(Step(s, Take(c, id)), events); s'.now < s.now + s.configs[c].visibilityMs
    ensures forall i :: 0 <= i < |events| ==> !Picks(events[i], id)
    ensures var s' := Run(Step(s, Take(c, id)), events);
      id in s'.sent && s.now <= s'.now
      && (id in s'.queue ==> s'.queue[id] == s.queue[id].(attempts := s.queue[id].attempts + 1, visibleAfter := s.now + s.configs[c].visibilityMs))
    decreases |events|
  {
    if events != [] {
      var before, e := events[..|events| - 1], events[|events| - 1];
      var u := Run(Step(s, Take(c, id)), before);
      ClockAdvances(u, e);
      LeaseHolds(s, c, id, before);
      LeasedStays(u, e, id);
      assert forall i :: 0 <= i < |before| ==> events[i] == before[i];
    }
  }

  lemma ClockAdvances(s: System, e: Event)
    requires Enabled(s, e)
    ensures s.now <= Step(s, e).now
  {
  }

  lemma LeasedStays(s: System, e: Event, id: Id)
    requires Enabled(s, e) && id in s.sent && (id in s.queue ==> s.queue[id].visibleAfter > s.now)
    ensures !Picks(e, id) && id in Step(s, e).sent && (id in Step(s, e).queue ==> id in s.queue && Step(s, e).queue[id] == s.queue[id])
  {
  }

  // ---------------------------------------------------------------- main results

  /** In every run, at the moment of each ack the same delivery had been handled, or had
      failed at the receive limit and been offered to the dead-letter queue; and a
      dead-letter send happens once per delivery, only at the limit, before its ack. */
  lemma AcksAndDeadLettersAreJustified(s: System, events: seq<Event>, n: nat)
    requires Fresh(s) && ValidRun(s, events) && n < |Run(s, events).log|
    ensures var s', before := Run(s, events), Run(s, events).log[..n];
      match s'.log[n]
      case Ack(d, _, _) => MayAck(s', before, d)
      case DeadLetter(d, _) => MayDeadLetter(s', before, d) && !SentToDlq(before, d) && d.id in s'.sent && d.body == s'.sent[d.id]
      case Invocation(d, _) => Invocation(d, true) !in before && Invocation(d, false) !in before
  {
    InvThroughRun(s, events);
    var s' := Run(s, events);
    assert EntryJustified(s', s'.log[..n], s'.log[n]) && LoggedEarlier(s', s'.log[n].d);
  }

  predicate AllHaveDlq(s: System) { forall c :: c in s.configs ==> s.configs[c].hasDlq }

  /** The message was sent and is neither queued nor past its retention. */
  predicate IsGone(s: System, id: Id) { id in s.sent && id !in s.queue && id !in s.expired }

  predicate NeverHandled(log: seq<Entry>, id: Id) {
    forall n :: 0 <= n < |log| && log[n].Invocation? && log[n].d.id == id ==> !log[n].ok
  }

  predicate EverySendFailed(log: seq<Entry>, id: Id) {
    forall n :: 0 <= n < |log| && log[n].DeadLetter? && log[n].d.id == id ==> !log[n].ok
  }

  predicate NoSendFailed(log: seq<Entry>, id: Id) {
    forall n :: 0 <= n < |log| && log[n].DeadLetter? && log[n].d.id == id ==> log[n].ok
  }

  /** Handled by a handler, or in the dead-letter queue with its body. */
  ghost predicate HandledOrDeadLettered(s: System, id: Id) {
    exists d: Delivery :: d.id == id && id in s.sent && d.body == s.sent[id] && (Invocation(d, true) in s.log || DeadLetter(d, true) in s.log)
  }

  /** A delivery at its limit failed, was removed by its ack, and no dead-letter queue took it. */
  predicate GivenUp(s: System, d: Delivery) {
    AtLimit(s, d) && Invocation(d, false) in s.log && (Ack(d, true, true) in s.log || Ack(d, false, true) in s.log)
    && (s.configs[d.consumer].hasDlq ==> DeadLetter(d, false) in s.log)
  }

  /** A message that is gone is lost exactly when no delivery of it was handled and every
      dead-letter send of it failed; then a failed delivery at its limit was given up. */
  lemma LostIff(s: System, events: seq<Event>, id: Id)
    requires Fresh(s) && ValidRun(s, events) && IsGone(Run(s, events), id)
    ensures var s' := Run(s, events);
      (!HandledOrDeadLettered(s', id) <==> NeverHandled(s'.log, id) && EverySendFailed(s'.log, id))
      && (!HandledOrDeadLettered(s', id) ==> exists d: Delivery :: d.id == id && GivenUp(s', d))
  {
    InvThroughRun(s, events);
    var s' := Run(s, events);
    hide Run, ValidRun, PhasesSound;
    LostIffInState(s', id);
    if !HandledOrDeadLettered(s', id) { LostWasGivenUp(s', id); }
  }

  lemma LostIffInState(s: System, id: Id)
    requires QueueSound(s) && id in s.sent
    ensures !HandledOrDeadLettered(s, id) <==> NeverHandled(s.log, id) && EverySendFailed(s.log, id)
  {
    if HandledOrDeadLettered(s, id) {
      var d: Delivery :| d.id == id && d.body == s.sent[id] && (Invocation(d, true) in s.log || DeadLetter(d, true) in s.log);
    } else {
      forall n | 0 <= n < |s.log| && s.log[n].d.id == id ensures !(s.log[n].Invocation? && s.log[n].ok) && !(s.log[n].DeadLetter? && s.log[n].ok) {
        assert LoggedEarlier(s, s.log[n].d) && s.log[n] in s.log;
      }
    }
  }

  lemma LostWasGivenUp(s: System, id: Id)
    requires QueueSound(s) && LogJustified(s) && GoneSound(s) && IsGone(s, id) && !HandledOrDeadLettered(s, id)
    ensures exists d: Delivery :: d.id == id && GivenUp(s, d)
  {
    LostIffInState(s, id);
    assert WasRemoved(s.log, id);
    var n :| 0 <= n < |s.log| && Removes(s.log[n], id);
    var d := s.log[n].d;
    assert EntryJustified(s, s.log[..n], s.log[n]);
    assert forall x :: x in s.log[..n] ==> x in s.log;
    assert s.log[n] in s.log;
    assert Invocation(d, true) !in s.log && DeadLetter(d, true) !in s.log;
    assert GivenUp(s, d);
  }

  /** With a dead-letter queue, a message none of whose dead-letter sends failed is not lost:
      it is still queued, past its retention, was handled, or is dead-lettered. */
  lemma NothingIsLost(s: System, events: seq<Event>, id: Id)
    requires Fresh(s) && ValidRun(s, events) && AllHaveDlq(s)
    requires var s' := Run(s, events); NoSendFailed(s'.log, id) && id in s'.sent
    ensures var s' := Run(s, events); id in s'.queue || id in s'.expired || HandledOrDeadLettered(s', id)
  {
    ConfigsStay(s, events);
    var s' := Run(s, events);
    if IsGone(s', id) {
      LostIff(s, events, id);
      hide Run, ValidRun, HandledOrDeadLettered;
      assert forall d: Delivery :: d.id == id ==> DeadLetter(d, false) !in s'.log;
      assert forall d: Delivery :: GivenUp(s', d) ==> DeadLetter(d, false) in s'.log;
    }
  }
}

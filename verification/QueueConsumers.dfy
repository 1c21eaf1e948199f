/**
  The queue provider and its consumers as they run when nobody interferes between
  their awaits.  Each method accounts for what it did as a run of the redelivery system,
  so what holds of every run holds of them.
*/
module QueueConsumers {
  import opened Options
  import opened QueueRedelivery
  import opened QueueCounts

  /** What the surroundings decide: does the receive, the handler, the dead-letter send, each ack succeed? */
  datatype Circumstance = Circumstance(received: bool, handled: bool, sent: bool, ack: AckFate, spentAck: AckFate)

  /** A throwing ack may have removed the message all the same. */
  datatype AckFate = Acked | Threw(removed: bool)

  predicate Deletes(f: AckFate) { f != Threw(false) }

  predicate IsVisible(ms: map<Id, Message>, now: int, k: Id) { k in ms && Visible(ms[k], now) }

  predicate NothingVisible(ms: map<Id, Message>, now: int) { forall k :: k in ms ==> !Visible(ms[k], now) }

  ghost predicate IsFirst(ms: map<Id, Message>, now: int, id: Id) {
    IsVisible(ms, now, id) && forall k :: IsVisible(ms, now, k) ==> ms[id].visibleAfter <= ms[k].visibleAfter
  }

  /** Visible and below the provider's receive limit. */
  predicate IsDue(ms: map<Id, Message>, now: int, max: nat, k: Id) { IsVisible(ms, now, k) && ms[k].attempts < max }

  predicate NothingDue(ms: map<Id, Message>, now: int, max: nat) { forall k :: k in ms ==> !IsDue(ms, now, max, k) }

  ghost predicate IsFirstDue(ms: map<Id, Message>, now: int, max: nat, id: Id) {
    IsDue(ms, now, max, id) && forall k :: IsDue(ms, now, max, k) ==> ms[id].visibleAfter <= ms[k].visibleAfter
  }

  /** `ms` differs from `before` only in exhausted visible messages, which are parked. */
  predicate OnlyParked(before: map<Id, Message>, ms: map<Id, Message>, now: int, max: nat) {
    ms.Keys == before.Keys
    && forall k :: k in before ==> ms[k] == before[k] || (ms[k].parked && IsVisible(before, now, k) && before[k].attempts >= max)
  }

  /** One message was leased until `visibilityMs` from now, with one more attempt; of the others
      only exhausted visible ones changed, which are parked. */
  predicate OnlyLeased(before: map<Id, Message>, ms: map<Id, Message>, now: int, max: nat, id: Id, visibilityMs: nat) {
    id in before && id in ms && ms[id] == Message(before[id].body, before[id].attempts + 1, now + visibilityMs, before[id].parked)
    && OnlyParked(before - {id}, ms - {id}, now, max)
  }

  lemma DueStaysDue(before: map<Id, Message>, ms: map<Id, Message>, now: int, max: nat)
    requires OnlyParked(before, ms, now, max)
    ensures forall k :: IsDue(before, now, max, k) ==> IsDue(ms, now, max, k) && ms[k] == before[k]
    ensures NothingVisible(ms, now) ==> NothingDue(before, now, max)
    ensures forall id :: IsFirst(ms, now, id) && ms[id].attempts < max ==> IsFirstDue(before, now, max, id) && ms[id] == before[id]
  {
  }

  /** SQLite-backed provider (providers/queues/sqlite-queue-provider.ts). */
  class QueueProvider {
    const maxReceives: nat
    var messages: map<Id, Message>

    constructor (maxReceives: nat)
      ensures this.maxReceives == maxReceives && messages == map[]
    {
      this.maxReceives := maxReceives;
      messages := map[];
    }

    /** The row with the earliest `visible_after`, if any is visible. */
    method FirstVisible(now: int) returns (r: Option<Id>)
      ensures if r.None? then NothingVisible(messages, now) else IsFirst(messages, now, r.value)
    {
      r := None;
      ghost var seen: map<Id, Message> := map[];
      var rest := messages.Keys;
      while rest != {}
        invariant seen == map k | k in messages && k !in rest :: messages[k]
        invariant rest <= messages.Keys && if r.None? then NothingVisible(seen, now) else IsFirst(seen, now, r.value)
        decreases rest
      {
        var k :| k in rest;
        if Visible(messages[k], now) && (r.None? || messages[k].visibleAfter < messages[r.value].visibleAfter) { r := Some(k); }
        rest, seen := rest - {k}, seen[k := messages[k]];
      }
      assert seen == messages;
    }

    function VisibleIds(now: int): set<Id>
      reads this
    {
      set k | k in messages && Visible(messages[k], now)
    }

    method MoveToDlq(id: Id, now: int)
      requires IsVisible(messages, now, id)
      modifies this
      ensures messages == old(messages)[id := old(messages)[id].(attempts := old(messages)[id].attempts + 1, visibleAfter := 0, parked := true)]
      ensures |VisibleIds(now)| < |old(VisibleIds(now))|
    {
      ghost var visible := VisibleIds(now);
      messages := messages[id := messages[id].(attempts := messages[id].attempts + 1, visibleAfter := 0, parked := true)];
      assert VisibleIds(now) == visible - {id};
    }

    /** Parks exhausted messages until it finds one to lease out: the earliest visible one below the limit. */
    method Receive(c: nat, visibilityMs: nat, now: int, ghost s: System) returns (r: Option<Delivery>, ghost events: seq<Event>)
      requires s.queue == messages && s.now == now && s.providerMax == maxReceives
      requires Has(s, c) && s.phases[c].Idle? && s.configs[c].visibilityMs == visibilityMs
      modifies this
      ensures ValidRun(s, events)
      ensures Run(s, events) == s.(queue := messages, phases := s.phases[c := if r.None? then Idle else Invoking(r.value)])
      ensures r.None? ==> NothingVisible(messages, now) && NothingDue(old(messages), now, maxReceives)
      ensures r.Some? ==> IsFirstDue(old(messages), now, maxReceives, r.value.id)
      ensures r.Some? ==> r.value == Delivery(c, r.value.id, old(messages)[r.value.id].body, old(messages)[r.value.id].attempts + 1)
      ensures r.None? ==> OnlyParked(old(messages), messages, now, maxReceives)
      ensures r.Some? ==> OnlyLeased(old(messages), messages, now, maxReceives, r.value.id, visibilityMs)
    {
      hide Run, ValidRun, IsFirst, IsFirstDue, NothingVisible, NothingDue, OnlyParked;
      ghost var before := messages;
      events := [];
      NoEvents(s);
      assert OnlyParked(before, messages, now, maxReceives) by { NoneParked(before, now, maxReceives); }
      while true
        invariant OnlyParked(before, messages, now, maxReceives)
        invariant ValidRun(s, events) && Run(s, events) == s.(queue := messages)
        decreases |VisibleIds(now)|
      {
        DueStaysDue(before, messages, now, maxReceives);
        var first := FirstVisible(now);
        if first.None? {
          assert s.phases[c := Idle] == s.phases;
          return None, events;
        }
        var id := first.value;
        FirstIsVisible(messages, now, id);
        var attempts := messages[id].attempts + 1;
        if attempts > maxReceives {
          OneMoreEvent(s, events, Park(c, id));
          OneMoreParked(before, messages, now, maxReceives, id);
          events := events + [Park(c, id)];
          MoveToDlq(id, now);
        } else {
          OneMoreEvent(s, events, Take(c, id));
          events := events + [Take(c, id)];
          r := Some(Delivery(c, id, messages[id].body, attempts));
          OneLeased(before, messages, now, maxReceives, id, visibilityMs);
          messages := messages[id := messages[id].(attempts := attempts, visibleAfter := now + visibilityMs)];
          return r, events;
        }
      }
    }

    method Ack(id: Id, fate: AckFate) returns (ok: bool)
      modifies this
      ensures ok == fate.Acked? && messages == if Deletes(fate) then old(messages) - {id} else old(messages)
    {
      if Deletes(fate) { messages := messages - {id}; }
      ok := fate.Acked?;
    }
  }

  lemma FirstIsVisible(ms: map<Id, Message>, now: int, id: Id)
    requires IsFirst(ms, now, id)
    ensures IsVisible(ms, now, id)
  {
  }

  lemma NoneParked(ms: map<Id, Message>, now: int, max: nat)
    ensures OnlyParked(ms, ms, now, max)
  {
  }

  lemma OneLeased(before: map<Id, Message>, ms: map<Id, Message>, now: int, max: nat, id: Id, visibilityMs: nat)
    requires OnlyParked(before, ms, now, max) && id in ms && ms[id] == before[id]
    ensures OnlyLeased(before, ms[id := ms[id].(attempts := ms[id].attempts + 1, visibleAfter := now + visibilityMs)], now, max, id, visibilityMs)
  {
  }

  lemma OneMoreParked(before: map<Id, Message>, ms: map<Id, Message>, now: int, max: nat, id: Id)
    requires OnlyParked(before, ms, now, max) && IsVisible(ms, now, id) && ms[id].attempts >= max
    ensures OnlyParked(before, ms[id := ms[id].(attempts := ms[id].attempts + 1, visibleAfter := 0, parked := true)], now, max)
  {
  }

  class DeadLetterQueue {
    var bodies: seq<string>

    constructor ()
      ensures bodies == []
    {
      bodies := [];
    }

    method Send(body: string, ok: bool)
      modifies this
      ensures bodies == if ok then old(bodies) + [body] else old(bodies)
    {
      if ok { bodies := bodies + [body]; }
    }
  }

  lemma NoEvents(s: System)
    ensures ValidRun(s, []) && Run(s, []) == s
  {
  }

  /** Bodies that reached the dead-letter queue, in order. */
  function Delivered(log: seq<Entry>): seq<string> {
    if log == [] then []
    else
      var e := log[|log| - 1];
      Delivered(log[..|log| - 1]) + if e.DeadLetter? && e.ok then [e.d.body] else []
  }

  lemma DeliveredOneMore(log: seq<Entry>, e: Entry)
    ensures Delivered(log + [e]) == Delivered(log) + if e.DeadLetter? && e.ok then [e.d.body] else []
  {
    assert (log + [e])[..|log|] == log;
  }

  /** A handler's return as one more event of a run. */
  lemma Invokes(s: System, events: seq<Event>, c: nat, ok: bool)
    requires ValidRun(s, events) && Has(Run(s, events), c) && Run(s, events).phases[c].Invoking?
    ensures var s1, es := Run(s, events), events + [InvokeReturns(c, ok)]; var d := s1.phases[c].d;
      ValidRun(s, es) && Run(s, es) == s1.(phases := s1.phases[c := AfterInvoke(s1.configs[c], d, ok)], log := s1.log + [Invocation(d, ok)])
      && Delivered(Run(s, es).log) == Delivered(s1.log)
  {
    OneMoreEvent(s, events, InvokeReturns(c, ok));
    DeliveredOneMore(Run(s, events).log, Invocation(Run(s, events).phases[c].d, ok));
  }

  /** An ack's return as one more event of a run. */
  lemma Acknowledges(s: System, events: seq<Event>, c: nat, fate: AckFate)
    requires ValidRun(s, events) && Has(Run(s, events), c) && (Run(s, events).phases[c].AckingHandled? || Run(s, events).phases[c].AckingSpent?)
    ensures var s1, es := Run(s, events), events + [AckReturns(c, fate.Acked?, Deletes(fate))]; var d := s1.phases[c].d;
      ValidRun(s, es)
      && Run(s, es) == s1.(queue := if Deletes(fate) then s1.queue - {d.id} else s1.queue,
                           phases := s1.phases[c := AfterAck(s1.configs[c], s1.phases[c], fate.Acked?)],
                           log := s1.log + [Entry.Ack(d, fate.Acked?, Deletes(fate))])
      && Delivered(Run(s, es).log) == Delivered(s1.log)
  {
    OneMoreEvent(s, events, AckReturns(c, fate.Acked?, Deletes(fate)));
    DeliveredOneMore(Run(s, events).log, Entry.Ack(Run(s, events).phases[c].d, fate.Acked?, Deletes(fate)));
  }

  /** The system `s` is in step with the provider and the dead-letter queue, and worker `c` is there. */
  ghost predicate Mirrored(s: System, c: nat, config: Config, queue: QueueProvider, dlq: DeadLetterQueue)
    reads queue, dlq
  {
    Has(s, c) && s.configs[c] == config && s.queue == queue.messages && s.providerMax == queue.maxReceives && dlq.bodies == Delivered(s.log)
  }

  /** The system `s` is in step with the provider, the dead-letter queue and idle worker `c`. */
  ghost predicate Mirrors(s: System, c: nat, config: Config, queue: QueueProvider, dlq: DeadLetterQueue)
    reads queue, dlq
  {
    Mirrored(s, c, config, queue, dlq) && s.phases[c].Idle?
  }

  /** What a spent delivery leaves in the log: one offer if there is a dead-letter queue, then the ack. */
  function SpentEntries(config: Config, d: Delivery, u: Circumstance): seq<Entry> {
    (if config.hasDlq then [DeadLetter(d, u.sent)] else []) + [Entry.Ack(d, u.spentAck.Acked?, Deletes(u.spentAck))]
  }

  /** What handling a delivery leaves in the log: the invocation, and its ack if it was handled. */
  function FirstEntries(d: Delivery, u: Circumstance): seq<Entry> {
    [Invocation(d, u.handled)] + if u.handled then [Entry.Ack(d, u.ack.Acked?, Deletes(u.ack))] else []
  }

  /** What one poll leaves in the log when it received `d`: a consumer acknowledges what it handled
      and spends what failed at the limit; a supervisor's worker also spends, at the limit, what it
      handled and could not acknowledge. */
  function PollEntries(config: Config, d: Delivery, u: Circumstance): seq<Entry> {
    var atLimit := d.attempts >= config.maxReceives;
    [Invocation(d, u.handled)]
    + (if u.handled then [Entry.Ack(d, u.ack.Acked?, Deletes(u.ack))] else [])
    + (if atLimit && (!u.handled || (config.supervisor && u.ack.Threw?)) then SpentEntries(config, d, u) else [])
  }

  /** The message is gone when one of the acks of the poll removed it. */
  predicate PollRemoves(config: Config, d: Delivery, u: Circumstance) {
    exists e :: e in PollEntries(config, d, u) && e.Ack? && e.removed
  }

  predicate SpendsIt(config: Config, d: Delivery, u: Circumstance) {
    d.attempts >= config.maxReceives && (!u.handled || (config.supervisor && u.ack.Threw?))
  }

  lemma PollParts(config: Config, d: Delivery, u: Circumstance)
    ensures PollEntries(config, d, u) == FirstEntries(d, u) + if SpendsIt(config, d, u) then SpentEntries(config, d, u) else []
    ensures PollRemoves(config, d, u) <==> (u.handled && Deletes(u.ack)) || (SpendsIt(config, d, u) && Deletes(u.spentAck))
  {
    var es := PollEntries(config, d, u);
    assert u.handled ==> es[1] == Entry.Ack(d, u.ack.Acked?, Deletes(u.ack));
    assert SpendsIt(config, d, u) ==> es[|es| - 1] == Entry.Ack(d, u.spentAck.Acked?, Deletes(u.spentAck));
    assert es == FirstEntries(d, u) + if SpendsIt(config, d, u) then SpentEntries(config, d, u) else [];
  }

  /** A receive that succeeds and finds a message that is due. */
  predicate Receives(ms: map<Id, Message>, now: int, max: nat, u: Circumstance) { u.received && !NothingDue(ms, now, max) }

  /** The first due message, as the delivery handed to consumer `c`. */
  ghost predicate IsNext(ms: map<Id, Message>, now: int, max: nat, c: nat, d: Delivery) {
    IsFirstDue(ms, now, max, d.id) && d == Delivery(c, d.id, ms[d.id].body, ms[d.id].attempts + 1)
  }

  /** The rows and the log after a poll: the first due message is leased, or gone if an ack of the
      poll removed it; exhausted visible messages may have been parked; nothing else changed. */
  ghost predicate Polled(ms: map<Id, Message>, now: int, max: nat, c: nat, config: Config, u: Circumstance,
                         log: seq<Entry>, ms': map<Id, Message>, log': seq<Entry>) {
    if Receives(ms, now, max, u) then exists d: Delivery :: PolledDelivery(ms, now, max, c, config, u, log, ms', log', d)
    else log' == log && OnlyParked(ms, ms', now, max) && (!u.received ==> ms' == ms)
  }

  ghost predicate PolledDelivery(ms: map<Id, Message>, now: int, max: nat, c: nat, config: Config, u: Circumstance,
                                 log: seq<Entry>, ms': map<Id, Message>, log': seq<Entry>, d: Delivery) {
    IsNext(ms, now, max, c, d) && log' == log + PollEntries(config, d, u)
    && if PollRemoves(config, d, u) then d.id !in ms' && OnlyParked(ms - {d.id}, ms', now, max)
       else OnlyLeased(ms, ms', now, max, d.id, config.visibilityMs)
  }

  lemma PolledNothing(ms: map<Id, Message>, now: int, max: nat, c: nat, config: Config, u: Circumstance, log: seq<Entry>, ms': map<Id, Message>)
    requires !u.received || NothingDue(ms, now, max)
    requires OnlyParked(ms, ms', now, max) && (!u.received ==> ms' == ms)
    ensures !Receives(ms, now, max, u) && Polled(ms, now, max, c, config, u, log, ms', log)
  {
  }

  lemma PolledOne(ms: map<Id, Message>, now: int, max: nat, c: nat, config: Config, u: Circumstance, log: seq<Entry>,
                  leased: map<Id, Message>, ms': map<Id, Message>, d: Delivery)
    requires u.received && IsNext(ms, now, max, c, d) && OnlyLeased(ms, leased, now, max, d.id, config.visibilityMs)
    requires ms' == if PollRemoves(config, d, u) then leased - {d.id} else leased
    ensures Receives(ms, now, max, u) && Polled(ms, now, max, c, config, u, log, ms', log + PollEntries(config, d, u))
  {
    assert IsDue(ms, now, max, d.id);
    assert PolledDelivery(ms, now, max, c, config, u, log, ms', log + PollEntries(config, d, u), d);
  }

  /** Offers a spent delivery to the dead-letter queue, if there is one, and acknowledges it. */
  method DeadLetterAndAck(c: nat, config: Config, queue: QueueProvider, dlq: DeadLetterQueue, d: Delivery, u: Circumstance,
                          ghost s: System, ghost before: seq<Event>) returns (ghost events: seq<Event>)
    requires ValidRun(s, before)
    requires var s1 := Run(s, before);
      Has(s1, c) && s1.configs[c] == config && s1.phases[c] == Spent(config, d) && s1.queue == queue.messages
      && s1.providerMax == queue.maxReceives && dlq.bodies == Delivered(s1.log)
    modifies queue, dlq
    ensures ValidRun(s, events) && Mirrors(Run(s, events), c, config, queue, dlq) && Run(s, events).log == Run(s, before).log + SpentEntries(config, d, u)
    ensures queue.messages == if Deletes(u.spentAck) then old(queue.messages) - {d.id} else old(queue.messages)
  {
    hide Run, ValidRun, Delivered;
    events := before;
    if config.hasDlq {
      OneMoreEvent(s, events, SendReturns(c, u.sent));
      DeliveredOneMore(Run(s, events).log, DeadLetter(d, u.sent));
      events := events + [SendReturns(c, u.sent)];
      dlq.Send(d.body, u.sent);
    }
    Acknowledges(s, events, c, u.spentAck);
    events := events + [AckReturns(c, u.spentAck.Acked?, Deletes(u.spentAck))];
    var _ := queue.Ack(d.id, u.spentAck);
    assert Run(s, events).log == Run(s, before).log + SpentEntries(config, d, u);
  }

  /** The polling consumer with backoff (apps/worker/queue-consumer.ts). */
  class ResilientConsumer {
    const id: nat
    const config: Config
    const queue: QueueProvider
    const dlq: DeadLetterQueue
    var consecutiveEmptyPolls: nat
    var lastSleepMs: nat

    constructor (id: nat, config: Config, queue: QueueProvider, dlq: DeadLetterQueue)
      requires !config.supervisor
      ensures this.id == id && this.config == config && this.queue == queue && this.dlq == dlq && consecutiveEmptyPolls == 0 && lastSleepMs == 0
    {
      this.id, this.config, this.queue, this.dlq := id, config, queue, dlq;
      consecutiveEmptyPolls, lastSleepMs := 0, 0;
    }

    /** One poll: its effect on the queues is that of a run ending with this consumer idle;
        true exactly when a handled message was acknowledged. */
    method ProcessNext(now: int, u: Circumstance, ghost s: System) returns (processed: bool, ghost events: seq<Event>)
      requires Mirrors(s, id, config, queue, dlq) && s.now == now && !config.supervisor
      modifies this, queue, dlq
      ensures ValidRun(s, events) && Mirrors(Run(s, events), id, config, queue, dlq)
      ensures Polled(old(queue.messages), now, queue.maxReceives, id, config, u,
                     s.log, queue.messages, Run(s, events).log)
      ensures processed <==> Receives(old(queue.messages), now, queue.maxReceives, u) && u.handled && u.ack.Acked?
      ensures lastSleepMs == if processed then 0 else old(lastSleepMs)
      ensures consecutiveEmptyPolls ==
        if processed then 0
        else if Receives(old(queue.messages), now, queue.maxReceives, u) then old(consecutiveEmptyPolls) else old(consecutiveEmptyPolls) + 1
    {
      hide Run, ValidRun, Step, Enabled, Delivered, Polled, IsFirstDue, NothingVisible, NothingDue, OnlyParked, OnlyLeased;
      NoEvents(s);
      ghost var ms := queue.messages;
      if !u.received {
        consecutiveEmptyPolls := consecutiveEmptyPolls + 1;
        NoneParked(ms, now, queue.maxReceives);
        PolledNothing(ms, now, queue.maxReceives, id, config, u, s.log, ms);
        return false, [];
      }
      var message;
      message, events := queue.Receive(id, config.visibilityMs, now, s);
      if message.None? {
        consecutiveEmptyPolls := consecutiveEmptyPolls + 1;
        PolledNothing(ms, now, queue.maxReceives, id, config, u, s.log, queue.messages);
        return false, events;
      }
      var d := message.value;
      PollParts(config, d, u);
      hide PollEntries, PollRemoves, SpentEntries;
      Invokes(s, events, id, u.handled);
      events := events + [InvokeReturns(id, u.handled)];
      assert Run(s, events).log == s.log + [Invocation(d, u.handled)];
      ghost var leased := queue.messages;
      if !u.handled {
        if d.attempts >= config.maxReceives {
          events := DeadLetterAndAck(id, config, queue, dlq, d, u, s, events);
        }
        assert Run(s, events).log == s.log + PollEntries(config, d, u);
        PolledOne(ms, now, queue.maxReceives, id, config, u, s.log, leased, queue.messages, d);
        return false, events;
      }
      Acknowledges(s, events, id, u.ack);
      events := events + [AckReturns(id, u.ack.Acked?, Deletes(u.ack))];
      processed := queue.Ack(d.id, u.ack);
      assert Run(s, events).log == s.log + PollEntries(config, d, u);
      PolledOne(ms, now, queue.maxReceives, id, config, u, s.log, leased, queue.messages, d);
      if processed {
        consecutiveEmptyPolls := 0;
        lastSleepMs := 0;
      }
    }
  }

  /** The guarded block of a supervisor's worker: the run, and if it succeeds its ack. */
  method RunAndAck(c: nat, config: Config, queue: QueueProvider, dlq: DeadLetterQueue, d: Delivery, u: Circumstance,
                   ghost s: System, ghost before: seq<Event>) returns (failed: bool, ghost events: seq<Event>)
    requires ValidRun(s, before) && Mirrored(Run(s, before), c, config, queue, dlq) && Run(s, before).phases[c] == Invoking(d) && config.supervisor
    modifies queue
    ensures ValidRun(s, events) && Mirrored(Run(s, events), c, config, queue, dlq)
    ensures failed <==> !u.handled || u.ack.Threw?
    ensures Run(s, events).phases[c] == if failed && d.attempts >= config.maxReceives then Spent(config, d) else Idle
    ensures Run(s, events).log == Run(s, before).log + FirstEntries(d, u)
    ensures queue.messages == if u.handled && Deletes(u.ack) then old(queue.messages) - {d.id} else old(queue.messages)
  {
    hide Run, ValidRun, Step, Enabled, Delivered;
    Invokes(s, before, c, u.handled);
    events := before + [InvokeReturns(c, u.handled)];
    failed := !u.handled;
    if u.handled {
      Acknowledges(s, events, c, u.ack);
      events := events + [AckReturns(c, u.ack.Acked?, Deletes(u.ack))];
      var ok := queue.Ack(d.id, u.ack);
      failed := !ok;
    }
    assert Run(s, events).log == Run(s, before).log + FirstEntries(d, u);
  }

  /** A worker of the supervisor (apps/worker/worker-supervisor.ts): one guard around the run and its ack. */
  class SupervisedWorker {
    const id: nat
    const config: Config
    const queue: QueueProvider
    const dlq: DeadLetterQueue

    constructor (id: nat, hasDlq: bool, queue: QueueProvider, dlq: DeadLetterQueue)
      ensures this.id == id && this.config == Config(5, hasDlq, true, 30000) && this.queue == queue && this.dlq == dlq
    {
      this.id, this.config, this.queue, this.dlq := id, Config(5, hasDlq, true, 30000), queue, dlq;
    }

    /** One cycle while running; false when the receive threw or nothing was visible. */
    method RunWorkerCycle(now: int, u: Circumstance, ghost s: System) returns (worked: bool, ghost events: seq<Event>)
      requires Mirrors(s, id, config, queue, dlq) && s.now == now && config.supervisor
      modifies queue, dlq
      ensures ValidRun(s, events) && Mirrors(Run(s, events), id, config, queue, dlq)
      ensures Polled(old(queue.messages), now, queue.maxReceives, id, config, u,
                     s.log, queue.messages, Run(s, events).log)
      ensures worked <==> Receives(old(queue.messages), now, queue.maxReceives, u)
    {
      hide Run, ValidRun, Step, Enabled, Delivered, Polled, IsFirstDue, NothingVisible, NothingDue, OnlyParked, OnlyLeased;
      NoEvents(s);
      ghost var ms := queue.messages;
      if !u.received {
        NoneParked(ms, now, queue.maxReceives);
        PolledNothing(ms, now, queue.maxReceives, id, config, u, s.log, ms);
        return false, [];
      }
      var message;
      message, events := queue.Receive(id, config.visibilityMs, now, s);
      if message.None? {
        PolledNothing(ms, now, queue.maxReceives, id, config, u, s.log, queue.messages);
        return false, events;
      }
      var d := message.value;
      PollParts(config, d, u);
      hide PollEntries, PollRemoves, SpentEntries;
      worked := true;
      ghost var leased := queue.messages;
      var failed;
      failed, events := RunAndAck(id, config, queue, dlq, d, u, s, events);
      assert failed && d.attempts >= config.maxReceives <==> SpendsIt(config, d, u);
      if failed && d.attempts >= config.maxReceives {
        events := DeadLetterAndAck(id, config, queue, dlq, d, u, s, events);
      }
      assert Run(s, events).log == s.log + PollEntries(config, d, u);
      PolledOne(ms, now, queue.maxReceives, id, config, u, s.log, leased, queue.messages, d);
    }
  }
}

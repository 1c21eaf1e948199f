/**
  What active pointers name, over every interleaving.

  The documented promise is that a pointer always names an existing Deployed
  revision.  Two steps can break it: a rollback decides on a record read before its
  await, and a restore keeps an existing record as it is yet still flips the pointer.
  The exact condition, and a discipline under which no step breaks it, are below.
*/
module DeploymentSafety {
  import opened Options
  import opened Ulid
  import opened HealthCheck
  import opened Deployment
  import opened DeploymentRuns

  /** Every record sits under its own project, function and identifier. */
  ghost predicate KeyedByOwnId(d: Durable) {
    forall p: string, f: string, k: string :: RecordOf(d.revisions, p, f, k).Some? ==>
      var r := RecordOf(d.revisions, p, f, k).value;
      r.id == k && r.project == p && r.functionName == f
  }

  ghost predicate PointersNameDeployed(d: Durable) {
    forall p: string, f: string :: PointerOf(d.pointers, p, f).Some? ==> NamesDeployed(d, p, f, PointerOf(d.pointers, p, f).value)
  }

  /** What a caller can check just before the step. */
  predicate Safe(s: System, e: Event)
    requires Enabled(s, e)
  {
    var d := s.svc.durable;
    match e
    case FinishDeploy(op) =>
      var f := s.flights[op];
      Passed(f.gate, f.outcomes) || PointerOf(d.pointers, f.revision.project, f.revision.functionName) != Some(f.revision.id)
    case FlipForRollback(op) =>
      var f := s.flights[op];
      RollbackDecision(f.read).Some? || NamesDeployed(d, f.project, f.fn, f.target)
    case Restore(p, f, rev, isActive) =>
      var existing := RecordOf(d.revisions, p, f, rev.id);
      isActive ==> (if existing.Some? then existing.value.state else rev.state) == Deployed
    case _ => true
  }

  lemma EventKeepsKeys(s: System, e: Event)
    requires Enabled(s, e) && KeyedByOwnId(s.svc.durable)
    ensures KeyedByOwnId(Apply(s, e).svc.durable)
  {
    hide TakesOver, Passed, GaveUp, RevisionId, PointerOf, RollbackDecision;
    var d, d' := s.svc.durable, Apply(s, e).svc.durable;
    if e.DeleteProject? {
      assert forall p: string, f: string, k: string :: RecordOf(d'.revisions, p, f, k).Some? ==> RecordOf(d'.revisions, p, f, k) == RecordOf(d.revisions, p, f, k);
    }
  }

  lemma FinishKeepsPointersIff(s: Service, rev: Revision, healthy: bool)
    requires PointersNameDeployed(s.durable)
    ensures PointersNameDeployed(DeployFinished(s, rev, healthy).durable)
       <==> healthy || PointerOf(s.durable.pointers, rev.project, rev.functionName) != Some(rev.id)
  {
    hide TakesOver;
    var d, d' := s.durable, DeployFinished(s, rev, healthy).durable;
    if healthy || PointerOf(d.pointers, rev.project, rev.functionName) != Some(rev.id) {
      forall p: string, f: string | PointerOf(d'.pointers, p, f).Some?
        ensures NamesDeployed(d', p, f, PointerOf(d'.pointers, p, f).value)
      {
        if PointerOf(d.pointers, p, f).Some? { assert NamesDeployed(d, p, f, PointerOf(d.pointers, p, f).value); }
      }
    } else {
      assert !NamesDeployed(d', rev.project, rev.functionName, rev.id);
    }
  }

  lemma RollbackKeepsPointersIff(s: Service, p: string, f: string, target: string)
    requires PointersNameDeployed(s.durable)
    ensures PointersNameDeployed(RolledBack(s, p, f, target).durable) <==> NamesDeployed(s.durable, p, f, target)
  {
    var d' := RolledBack(s, p, f, target).durable;
    assert PointerOf(d'.pointers, p, f) == Some(target);
  }

  lemma RestoreKeepsPointersIff(s: Service, p: string, f: string, rev: Revision, isActive: bool)
    requires PointersNameDeployed(s.durable)
    ensures var existing := RecordOf(s.durable.revisions, p, f, rev.id);
      PointersNameDeployed(Restored(s, p, f, rev, isActive).durable)
      <==> (isActive ==> (if existing.Some? then existing.value.state else rev.state) == Deployed)
  {
    var d, d' := s.durable, Restored(s, p, f, rev, isActive).durable;
    if isActive {
      assert PointerOf(d'.pointers, p, f) == Some(rev.id);
    }
    forall p': string, f': string | PointerOf(d.pointers, p', f').Some?
      ensures NamesDeployed(d', p', f', PointerOf(d.pointers, p', f').value)
    {
      assert NamesDeployed(d, p', f', PointerOf(d.pointers, p', f').value);
    }
  }

  lemma DeleteKeepsPointers(s: Service, project: string)
    requires PointersNameDeployed(s.durable)
    ensures PointersNameDeployed(Deleted(s, project).durable)
  {
    var d, d' := s.durable, Deleted(s, project).durable;
    forall p: string, f: string | PointerOf(d'.pointers, p, f).Some?
      ensures NamesDeployed(d', p, f, PointerOf(d'.pointers, p, f).value)
    {
      assert NamesDeployed(d, p, f, PointerOf(d.pointers, p, f).value);
    }
  }

  /** A step keeps every pointer on a Deployed record exactly when it is safe. */
  lemma StepKeepsPointersIff(s: System, e: Event)
    requires Enabled(s, e) && PointersNameDeployed(s.svc.durable)
    ensures PointersNameDeployed(Apply(s, e).svc.durable) <==> Safe(s, e)
  {
    hide PointersNameDeployed, DeployFinished, RolledBack, Restored, Deleted, NamesDeployed, RecordOf, PointerOf, Passed, GaveUp;
    match e
    case FinishDeploy(op) => FinishKeepsPointersIff(s.svc, s.flights[op].revision, Passed(s.flights[op].gate, s.flights[op].outcomes));
    case FlipForRollback(op) => RollbackKeepsPointersIff(s.svc, s.flights[op].project, s.flights[op].fn, s.flights[op].target);
    case Restore(p, f, rev, isActive) => RestoreKeepsPointersIff(s.svc, p, f, rev, isActive);
    case DeleteProject(p) => DeleteKeepsPointers(s.svc, p);
    case _ =>
  }

  // ---------------------------------------------------------------- whole runs

  predicate AllSafe(s: System, events: seq<Event>)
    requires ValidRun(s, events)
    decreases |events|
  {
    events == [] || (Safe(s, events[0]) && AllSafe(Apply(s, events[0]), events[1..]))
  }

  /** Every state the run passes through keeps its pointers on Deployed records. */
  ghost predicate AlwaysSound(s: System, events: seq<Event>)
    requires ValidRun(s, events)
    decreases |events|
  {
    PointersNameDeployed(s.svc.durable) && (events == [] || AlwaysSound(Apply(s, events[0]), events[1..]))
  }

  lemma {:induction false} RunIsSoundIff(s: System, events: seq<Event>)
    requires ValidRun(s, events) && PointersNameDeployed(s.svc.durable)
    ensures AlwaysSound(s, events) <==> AllSafe(s, events)
    decreases |events|
  {
    if events != [] {
      StepKeepsPointersIff(s, events[0]);
      if Safe(s, events[0]) { RunIsSoundIff(Apply(s, events[0]), events[1..]); }
    }
  }

  function SampleRevision(state: RevisionState): Revision {
    Revision("rev_1", "p", "f", "sha256:00", "sha256-00", state, 0, "")
  }

  /** A deletion between a rollback's read and its flip leaves the pointer on nothing. */
  lemma DeletionDuringRollbackDangles()
    ensures var events := [Restore("p", "f", SampleRevision(Deployed), true), ReadForRollback(0, "p", "f", "rev_1"),
                           DeleteProject("p"), FlipForRollback(0)];
      ValidRun(START, events)
      && PointerOf(After(START, events).svc.durable.pointers, "p", "f") == Some("rev_1")
      && RecordOf(After(START, events).svc.durable.revisions, "p", "f", "rev_1").None?
  {
    var e0, e1, e2, e3 := Restore("p", "f", SampleRevision(Deployed), true), ReadForRollback(0, "p", "f", "rev_1"), DeleteProject("p"), FlipForRollback(0);
    var s1 := Apply(START, e0);
    var s2 := Apply(s1, e1);
    var s3 := Apply(s2, e2);
    var s4 := Apply(s3, e3);
    NoEvents(s4);
    hide ValidRun, After;
    EventFirst(s3, e3, []);
    EventFirst(s2, e2, [e3]);
    EventFirst(s1, e1, [e2, e3]);
    EventFirst(START, e0, [e1, e2, e3]);
    assert [e0] + [e1, e2, e3] == [e0, e1, e2, e3] && [e1] + [e2, e3] == [e1, e2, e3] && [e2] + [e3] == [e2, e3] && [e3] + [] == [e3];
  }

  lemma NoEvents(s: System)
    ensures ValidRun(s, []) && After(s, []) == s
  {
  }

  lemma EventFirst(s: System, e: Event, rest: seq<Event>)
    requires Enabled(s, e) && ValidRun(Apply(s, e), rest)
    ensures ValidRun(s, [e] + rest) && After(s, [e] + rest) == After(Apply(s, e), rest)
  {
    assert ([e] + rest)[1..] == rest;
  }

  /** Restoring a Deployed revision over a Failed record of the same artifact activates the Failed one. */
  lemma RestoreOverFailedActivatesIt()
    ensures var events := [Restore("p", "f", SampleRevision(Failed), false), Restore("p", "f", SampleRevision(Deployed), true)];
      ValidRun(START, events)
      && PointerOf(After(START, events).svc.durable.pointers, "p", "f") == Some("rev_1")
      && RecordOf(After(START, events).svc.durable.revisions, "p", "f", "rev_1") == Some(SampleRevision(Failed))
  {
    var e0, e1 := Restore("p", "f", SampleRevision(Failed), false), Restore("p", "f", SampleRevision(Deployed), true);
    var s1 := Apply(START, e0);
    var s2 := Apply(s1, e1);
    assert [e0, e1][1..] == [e1] && [e1][1..] == [];
    assert After(s1, [e1]) == s2;
  }

  // ---------------------------------------------------------------- a discipline that suffices

  /** No record and no other deploy in flight has this identifier. */
  ghost predicate FreshId(s: System, p: string, f: string, id: string) {
    RecordOf(s.svc.durable.revisions, p, f, id).None? && !InFlight(s, p, f, id)
  }

  ghost predicate InFlight(s: System, p: string, f: string, id: string) {
    exists op :: op in s.flights && s.flights[op].Deploying?
      && s.flights[op].revision.project == p && s.flights[op].revision.functionName == f && s.flights[op].revision.id == id
  }

  /** Identifiers are new when taken, projects are not deleted under a rollback, and
      what an active restore leaves in place is Deployed. */
  ghost predicate Disciplined(s: System, e: Event)
    requires Enabled(s, e)
  {
    match e
    case TakeId(op, p, f, _, _, now, random) => FreshId(s, p, f, RevisionId(NextTimestamp(s.svc.lastTimestamp, now), random))
    case DeleteProject(p) => forall op :: op in s.flights && s.flights[op].RollingBack? ==> s.flights[op].project != p
    case Restore(p, f, rev, _) => !InFlight(s, p, f, rev.id) && Safe(s, e)
    case _ => true
  }

  predicate SameSlot(a: Revision, b: Revision) { a.project == b.project && a.functionName == b.functionName && a.id == b.id }

  function RecordAt(s: System, rev: Revision): Option<Revision> {
    RecordOf(s.svc.durable.revisions, rev.project, rev.functionName, rev.id)
  }

  predicate IsDeploy(s: System, op: nat) { op in s.flights && s.flights[op].Deploying? }

  /** Deploys in flight have no record yet and differ in identifier. */
  ghost predicate DeploysAreNew(s: System) {
    && (forall op :: IsDeploy(s, op) ==> RecordAt(s, s.flights[op].revision).None?)
    && (forall op, op' :: IsDeploy(s, op) && IsDeploy(s, op') && op != op' ==> !SameSlot(s.flights[op].revision, s.flights[op'].revision))
  }

  /** A rollback in flight that read a Deployed record still finds one. */
  ghost predicate RollbacksStand(s: System) {
    forall op :: WillFlip(s, op) ==> NamesDeployed(s.svc.durable, s.flights[op].project, s.flights[op].fn, s.flights[op].target)
  }

  predicate WillFlip(s: System, op: nat) {
    op in s.flights && s.flights[op].RollingBack? && RollbackDecision(s.flights[op].read).None?
  }

  ghost predicate FlightsStand(s: System) { DeploysAreNew(s) && RollbacksStand(s) }

  /** The record slots a step may change. */
  predicate Touches(s: System, e: Event, p: string, f: string, k: string)
    requires Enabled(s, e)
  {
    match e
    case FinishDeploy(op) =>
      var rev := s.flights[op].revision;
      p == rev.project && f == rev.functionName && k == rev.id
    case Restore(p', f', rev, _) => p == p' && f == f' && k == rev.id && RecordOf(s.svc.durable.revisions, p, f, k).None?
    case DeleteProject(p') => p == p'
    case _ => false
  }

  lemma UntouchedRecordsStay(s: System, e: Event, p: string, f: string, k: string)
    requires Enabled(s, e)
    ensures var rs, rs' := s.svc.durable.revisions, Apply(s, e).svc.durable.revisions;
      (!Touches(s, e, p, f, k) ==> RecordOf(rs', p, f, k) == RecordOf(rs, p, f, k))
      && (e.DeleteProject? && Touches(s, e, p, f, k) ==> RecordOf(rs', p, f, k).None?)
  {
    hide TakesOver, Passed, GaveUp, RevisionId, PointerOf, RollbackDecision, Acceptable, WithPointer, NewRevision;
    if e.DeleteProject? {
      hide WithRecord, RestoreConflicts;
    } else {
      hide Deleted;
    }
  }

  lemma DisciplinedStep(s: System, e: Event)
    requires Enabled(s, e) && Disciplined(s, e)
    requires PointersNameDeployed(s.svc.durable) && FlightsStand(s)
    ensures Safe(s, e) && FlightsStand(Apply(s, e))
  {
    var d := s.svc.durable;
    if e.FinishDeploy? {
      var rev := s.flights[e.op].revision;
      if PointerOf(d.pointers, rev.project, rev.functionName) == Some(rev.id) {
        assert false;
      }
    }
    DeploysStayNew(s, e);
    RollbacksStillStand(s, e);
  }

  lemma DeploysStayDistinct(s: System, e: Event, op: nat, op': nat)
    requires Enabled(s, e) && Disciplined(s, e) && DeploysAreNew(s)
    requires IsDeploy(Apply(s, e), op) && IsDeploy(Apply(s, e), op') && op != op'
    ensures !SameSlot(Apply(s, e).flights[op].revision, Apply(s, e).flights[op'].revision)
  {
    hide RevisionId, DeployFinished, RolledBack, Restored, Deleted, RecordOf, PointerOf, Passed, GaveUp;
    assert IsDeploy(s, op) || (e.TakeId? && e.op == op);
    assert IsDeploy(s, op') || (e.TakeId? && e.op == op');
  }

  lemma DeploysStayUnrecorded(s: System, e: Event, op: nat)
    requires Enabled(s, e) && Disciplined(s, e) && DeploysAreNew(s) && IsDeploy(Apply(s, e), op)
    ensures RecordAt(Apply(s, e), Apply(s, e).flights[op].revision).None?
  {
    var rev := Apply(s, e).flights[op].revision;
    UntouchedRecordsStay(s, e, rev.project, rev.functionName, rev.id);
    hide RevisionId, DeployFinished, RolledBack, Restored, Deleted, RecordOf, PointerOf, Passed, GaveUp, RestoreConflicts;
    if e.FinishDeploy? {
      assert IsDeploy(s, e.op) && IsDeploy(s, op) && !SameSlot(s.flights[op].revision, s.flights[e.op].revision);
    } else if !e.TakeId? || e.op != op {
      assert IsDeploy(s, op) && s.flights[op].revision == rev;
    }
  }

  lemma DeploysStayNew(s: System, e: Event)
    requires Enabled(s, e) && Disciplined(s, e) && DeploysAreNew(s)
    ensures DeploysAreNew(Apply(s, e))
  {
    hide Enabled, Apply, Disciplined, RecordAt, SameSlot;
    var t := Apply(s, e);
    forall op | IsDeploy(t, op) ensures RecordAt(t, t.flights[op].revision).None? {
      DeploysStayUnrecorded(s, e, op);
    }
    forall op, op' | IsDeploy(t, op) && IsDeploy(t, op') && op != op'
      ensures !SameSlot(t.flights[op].revision, t.flights[op'].revision)
    {
      DeploysStayDistinct(s, e, op, op');
    }
  }

  lemma RollbackStillStands(s: System, e: Event, op: nat)
    requires Enabled(s, e) && Disciplined(s, e) && DeploysAreNew(s) && RollbacksStand(s) && WillFlip(Apply(s, e), op)
    ensures var f := Apply(s, e).flights[op]; NamesDeployed(Apply(s, e).svc.durable, f.project, f.fn, f.target)
  {
    var t := Apply(s, e);
    if e.ReadForRollback? && e.op == op {
      assert t.svc == s.svc;
    } else {
      UntouchedRecordsStay(s, e, t.flights[op].project, t.flights[op].fn, t.flights[op].target);
      hide RevisionId, DeployFinished, RolledBack, Restored, Deleted, RecordOf, PointerOf, Passed, GaveUp, NewRevision, RestoreConflicts;
      assert WillFlip(s, op) && s.flights[op] == t.flights[op];
      if e.FinishDeploy? { assert IsDeploy(s, e.op); }
    }
  }

  lemma RollbacksStillStand(s: System, e: Event)
    requires Enabled(s, e) && Disciplined(s, e) && DeploysAreNew(s) && RollbacksStand(s)
    ensures RollbacksStand(Apply(s, e))
  {
    hide Enabled, Apply, Disciplined;
    forall op | WillFlip(Apply(s, e), op)
      ensures NamesDeployed(Apply(s, e).svc.durable, Apply(s, e).flights[op].project, Apply(s, e).flights[op].fn, Apply(s, e).flights[op].target)
    {
      RollbackStillStands(s, e, op);
    }
  }

  ghost predicate DisciplinedRun(s: System, events: seq<Event>)
    requires ValidRun(s, events)
    decreases |events|
  {
    events == [] || (Disciplined(s, events[0]) && DisciplinedRun(Apply(s, events[0]), events[1..]))
  }

  /** Under the discipline every pointer names a Deployed record of its project and
      function in every state of every run. */
  lemma {:induction false} DisciplinedRunsAreSound(s: System, events: seq<Event>)
    requires ValidRun(s, events) && DisciplinedRun(s, events)
    requires PointersNameDeployed(s.svc.durable) && FlightsStand(s) && KeyedByOwnId(s.svc.durable)
    ensures AlwaysSound(s, events) && KeyedByOwnId(After(s, events).svc.durable)
    decreases |events|
  {
    if events != [] {
      DisciplinedStep(s, events[0]);
      StepKeepsPointersIff(s, events[0]);
      EventKeepsKeys(s, events[0]);
      DisciplinedRunsAreSound(Apply(s, events[0]), events[1..]);
    }
  }

  // ---------------------------------------------------------------- the health gate

  predicate Explains(c: Completion, p: string, f: string, r: Revision) {
    match c
    case DeployDone(cp, cf, id, healthy, gate, outcomes) =>
      cp == p && cf == f && id == r.id && healthy == Passed(gate, outcomes) && r.state == (if healthy then Deployed else Failed)
      && (!healthy && gate.InProcess? ==> outcomes != [] && !outcomes[|outcomes| - 1])
    case RestoreDone(cp, cf, id, _) => cp == p && cf == f && id == r.id
    case _ => false
  }

  /** Every record was restored, or is what a finished deploy's health gate made it. */
  ghost predicate RecordsExplained(s: System) {
    forall p: string, f: string, k: string :: RecordOf(s.svc.durable.revisions, p, f, k).Some? ==>
      IsExplained(s.history, p, f, RecordOf(s.svc.durable.revisions, p, f, k).value)
  }

  ghost predicate IsExplained(history: seq<Completion>, p: string, f: string, r: Revision) {
    exists i :: 0 <= i < |history| && Explains(history[i], p, f, r)
  }

  lemma StaysExplained(h: seq<Completion>, h': seq<Completion>, p: string, f: string, r: Revision)
    requires h <= h' && IsExplained(h, p, f, r)
    ensures IsExplained(h', p, f, r)
  {
    var i :| 0 <= i < |h| && Explains(h[i], p, f, r);
    assert h'[i] == h[i];
  }

  lemma HistoryGrows(s: System, e: Event)
    requires Enabled(s, e)
    ensures s.history <= Apply(s, e).history
  {
    hide Passed, GaveUp, RollbackDecision, RestoreConflicts, DeployFinished, Restored, Deleted, RolledBack, RevisionId;
  }

  lemma TouchedIsExplained(s: System, e: Event, p: string, f: string, k: string)
    requires Enabled(s, e) && Touches(s, e, p, f, k) && RecordOf(Apply(s, e).svc.durable.revisions, p, f, k).Some?
    ensures RecordOf(Apply(s, e).svc.durable.revisions, p, f, k) == RecordOf(s.svc.durable.revisions, p, f, k)
      || IsExplained(Apply(s, e).history, p, f, RecordOf(Apply(s, e).svc.durable.revisions, p, f, k).value)
  {
    hide TakesOver, Passed, RevisionId, PointerOf, RollbackDecision, Acceptable, WithPointer, NewRevision;
    var t := Apply(s, e);
    if e.FinishDeploy? || e.Restore? {
      assert t.history == s.history || Explains(t.history[|s.history|], p, f, RecordOf(t.svc.durable.revisions, p, f, k).value);
    }
  }

  lemma EventKeepsExplanations(s: System, e: Event)
    requires Enabled(s, e) && RecordsExplained(s)
    ensures RecordsExplained(Apply(s, e))
  {
    hide Apply, Enabled, RecordOf, Explains, Touches, IsExplained;
    var t := Apply(s, e);
    HistoryGrows(s, e);
    forall p: string, f: string, k: string | RecordOf(t.svc.durable.revisions, p, f, k).Some?
      ensures IsExplained(t.history, p, f, RecordOf(t.svc.durable.revisions, p, f, k).value)
    {
      var r := RecordOf(t.svc.durable.revisions, p, f, k).value;
      UntouchedRecordsStay(s, e, p, f, k);
      if Touches(s, e, p, f, k) { TouchedIsExplained(s, e, p, f, k); }
      if RecordOf(s.svc.durable.revisions, p, f, k) == Some(r) { StaysExplained(s.history, t.history, p, f, r); }
    }
  }

  lemma {:induction false} RunKeepsExplanations(s: System, events: seq<Event>)
    requires ValidRun(s, events) && RecordsExplained(s)
    ensures RecordsExplained(After(s, events))
    decreases |events|
  {
    if events != [] {
      EventKeepsExplanations(s, events[0]);
      RunKeepsExplanations(Apply(s, events[0]), events[1..]);
    }
  }

  /** A run of probe outcomes that ends in as many successes as the gate demands. */
  ghost predicate EndsInRequiredRun(gate: Gate, outcomes: seq<bool>) {
    var required := if gate.InProcess? then REQUIRED_HEALTHY_PROBES else gate.required;
    outcomes != [] && outcomes[|outcomes| - 1] && |outcomes| >= required
    && forall i :: 0 <= i < |outcomes| && i >= |outcomes| - required ==> outcomes[i]
  }

  ghost predicate ProbedDeployOf(c: Completion, p: string, f: string, id: string) {
    HealthyDeployOf(c, p, f) && c.id == id && EndsInRequiredRun(c.gate, c.outcomes)
  }

  /** No restore brought this revision into this function. */
  predicate NotRestored(history: seq<Completion>, p: string, f: string, id: string) {
    forall i :: 0 <= i < |history| && history[i].RestoreDone? ==> history[i].project != p || history[i].fn != f || history[i].id != id
  }

  /** A Deployed record that no restore brought in comes from a deploy whose probes
      ended in the required run of consecutive successes. */
  lemma DeployedMeansProbed(events: seq<Event>, p: string, f: string, id: string)
    requires ValidRun(START, events) && NamesDeployed(After(START, events).svc.durable, p, f, id)
    requires NotRestored(After(START, events).history, p, f, id)
    ensures exists i :: 0 <= i < |After(START, events).history| && ProbedDeployOf(After(START, events).history[i], p, f, id)
  {
    RunKeepsExplanations(START, events);
    RunKeepsKeys(START, events);
    ExplainedMeansProbed(After(START, events), p, f, id);
  }

  lemma ExplainedMeansProbed(s: System, p: string, f: string, id: string)
    requires RecordsExplained(s) && KeyedByOwnId(s.svc.durable) && NamesDeployed(s.svc.durable, p, f, id)
    requires NotRestored(s.history, p, f, id)
    ensures exists i :: 0 <= i < |s.history| && ProbedDeployOf(s.history[i], p, f, id)
  {
    hide Passed;
    var r := RecordOf(s.svc.durable.revisions, p, f, id).value;
    assert IsExplained(s.history, p, f, r);
    var i :| 0 <= i < |s.history| && Explains(s.history[i], p, f, r);
    PassedEndsInRequiredRun(s.history[i].gate, s.history[i].outcomes);
    assert ProbedDeployOf(s.history[i], p, f, id);
  }

  ghost predicate UnhealthyDeployOf(c: Completion, p: string, f: string, id: string) {
    c.DeployDone? && c.project == p && c.fn == f && c.id == id && !c.healthy && !Passed(c.gate, c.outcomes)
    && (c.gate.InProcess? ==> c.outcomes != [] && !c.outcomes[|c.outcomes| - 1])
  }

  /** A Failed record that no restore brought in comes from a deploy whose gate did not pass; an
      in-process gate gave up at a probe that did not succeed. */
  lemma FailedMeansUnhealthy(events: seq<Event>, p: string, f: string, id: string)
    requires ValidRun(START, events)
    requires var s := After(START, events); var r := RecordOf(s.svc.durable.revisions, p, f, id);
      r.Some? && r.value.state == Failed && NotRestored(s.history, p, f, id)
    ensures exists i :: 0 <= i < |After(START, events).history| && UnhealthyDeployOf(After(START, events).history[i], p, f, id)
  {
    RunKeepsExplanations(START, events);
    RunKeepsKeys(START, events);
    ExplainedMeansUnhealthy(After(START, events), p, f, id);
  }

  lemma ExplainedMeansUnhealthy(s: System, p: string, f: string, id: string)
    requires RecordsExplained(s) && KeyedByOwnId(s.svc.durable) && NotRestored(s.history, p, f, id)
    requires var r := RecordOf(s.svc.durable.revisions, p, f, id); r.Some? && r.value.state == Failed
    ensures exists i :: 0 <= i < |s.history| && UnhealthyDeployOf(s.history[i], p, f, id)
  {
    hide Passed;
    var r := RecordOf(s.svc.durable.revisions, p, f, id).value;
    assert IsExplained(s.history, p, f, r);
    var i :| 0 <= i < |s.history| && Explains(s.history[i], p, f, r);
    assert UnhealthyDeployOf(s.history[i], p, f, id);
  }

  lemma {:induction false} RunKeepsKeys(s: System, events: seq<Event>)
    requires ValidRun(s, events) && KeyedByOwnId(s.svc.durable)
    ensures KeyedByOwnId(After(s, events).svc.durable)
    decreases |events|
  {
    if events != [] {
      EventKeepsKeys(s, events[0]);
      RunKeepsKeys(Apply(s, events[0]), events[1..]);
    }
  }

  // ---------------------------------------------------------------- identifiers are fresh by their order

  /** No restored identifier was issued to a deploy. */
  ghost predicate RestoresApart(s: System) {
    forall i :: 0 <= i < |s.history| && s.history[i].RestoreDone? ==> !IsIssued(s, s.history[i].id)
  }

  /** No deletion under a rollback, and restores leave Deployed what they activate. */
  ghost predicate Careful(s: System, e: Event)
    requires Enabled(s, e)
  {
    match e
    case DeleteProject(p) => forall op :: op in s.flights && s.flights[op].RollingBack? ==> s.flights[op].project != p
    case Restore(_, _, _, _) => Safe(s, e)
    case _ => true
  }

  ghost predicate CarefulRun(s: System, events: seq<Event>)
    requires ValidRun(s, events)
    decreases |events|
  {
    events == [] || (Careful(s, events[0]) && CarefulRun(Apply(s, events[0]), events[1..]))
  }

  /** What happened up to `s` is part of what happened up to `end`. */
  predicate Earlier(s: System, end: System) { s.history <= end.history && s.issued <= end.issued }

  lemma IssuedStays(s: System, end: System, id: string)
    requires Earlier(s, end) && IsIssued(s, id)
    ensures exists j :: 0 <= j < |s.issued| && j < |end.issued| && end.issued[j].Id() == id
    ensures IsIssued(end, id)
  {
    var j :| 0 <= j < |s.issued| && s.issued[j].Id() == id;
    assert end.issued[j] == s.issued[j];
  }

  lemma StillIssued(s: System, end: System, id: string)
    requires Earlier(s, end)
    ensures IsIssued(s, id) ==> IsIssued(end, id)
  {
    if IsIssued(s, id) { IssuedStays(s, end, id); }
  }

  /** The identifier issued at position `n` was not issued before. */
  lemma IssuedOnce(end: System, n: nat, j: nat)
    requires TimesAscend(end) && end.svc.lastTimestamp < TIME_LIMIT && j < n < |end.issued|
    ensures end.issued[j].Id() != end.issued[n].Id()
  {
    hide RevisionId;
    IssueOrderIsStringOrder(end, j, n);
  }

  predicate WasRestored(history: seq<Completion>, id: string) {
    exists i :: 0 <= i < |history| && history[i].RestoreDone? && history[i].id == id
  }

  lemma RestoredIsApart(s: System, end: System, id: string)
    requires Earlier(s, end) && RestoresApart(end)
    ensures WasRestored(s.history, id) ==> !IsIssued(end, id)
  {
    if WasRestored(s.history, id) {
      var i :| 0 <= i < |s.history| && s.history[i].RestoreDone? && s.history[i].id == id;
      assert end.history[i] == s.history[i];
    }
  }

  /** A record's identifier was issued or restored. */
  lemma RecordIsKnown(s: System, p: string, f: string, k: string)
    requires DeploysAreIssued(s) && RecordsExplained(s) && KeyedByOwnId(s.svc.durable)
    ensures RecordOf(s.svc.durable.revisions, p, f, k).Some? ==> IsIssued(s, k) || WasRestored(s.history, k)
  {
    hide Passed;
    if RecordOf(s.svc.durable.revisions, p, f, k).Some? {
      var r := RecordOf(s.svc.durable.revisions, p, f, k).value;
      assert IsExplained(s.history, p, f, r);
      var i :| 0 <= i < |s.history| && Explains(s.history[i], p, f, r);
      assert s.history[i].DeployDone? ==> IsIssued(s, s.history[i].id);
    }
  }

  lemma NewIssueIsNew(s: System, e: Event, end: System)
    requires Enabled(s, e) && e.TakeId? && Earlier(Apply(s, e), end) && TimesAscend(end) && end.svc.lastTimestamp < TIME_LIMIT
    ensures var id := Apply(s, e).issued[|s.issued|].Id(); !IsIssued(s, id) && IsIssued(end, id) && Earlier(s, end)
  {
    hide RevisionId, Acceptable;
    var n := |s.issued|;
    assert end.issued[n] == Apply(s, e).issued[n];
    forall j | 0 <= j < n ensures s.issued[j].Id() != end.issued[n].Id() {
      assert s.issued[j] == end.issued[j];
      IssuedOnce(end, n, j);
    }
  }

  lemma TakenIdIsFresh(s: System, e: Event, end: System)
    requires Enabled(s, e) && e.TakeId? && Earlier(Apply(s, e), end) && RestoresApart(end)
    requires TimesAscend(end) && end.svc.lastTimestamp < TIME_LIMIT
    requires DeploysAreIssued(s) && RecordsExplained(s) && KeyedByOwnId(s.svc.durable)
    ensures Disciplined(s, e)
  {
    hide RevisionId, Acceptable, IsIssued, RecordsExplained, KeyedByOwnId, RestoresApart, TimesAscend, WasRestored;
    var id := Apply(s, e).issued[|s.issued|].Id();
    NewIssueIsNew(s, e, end);
    RecordIsKnown(s, e.project, e.fn, id);
    RestoredIsApart(s, end, id);
  }

  lemma RestoredIdIsApart(s: System, e: Event, end: System)
    requires Enabled(s, e) && e.Restore? && Safe(s, e) && Earlier(Apply(s, e), end) && RestoresApart(end) && DeploysAreIssued(s)
    ensures Disciplined(s, e)
  {
    hide RevisionId, Passed, GaveUp, Acceptable, Restored;
    assert end.history[|s.history|] == Apply(s, e).history[|s.history|];
    StillIssued(s, end, e.revision.id);
  }

  /** From the start on, with the clock below the limit of its digits: if no restored
      identifier was issued to a deploy, no project is deleted under a rollback, and restores
      leave Deployed what they activate, every pointer names a Deployed record throughout. */
  lemma CarefulRunsAreSound(events: seq<Event>)
    requires ValidRun(START, events) && CarefulRun(START, events)
    requires RestoresApart(After(START, events)) && After(START, events).svc.lastTimestamp < TIME_LIMIT
    ensures AlwaysSound(START, events) && KeyedByOwnId(After(START, events).svc.durable)
  {
    StartIsSound();
    hide *;
    IssuesThroughRun(START, events);
    CarefulIsDisciplined(START, events, After(START, events));
    DisciplinedRunsAreSound(START, events);
  }

  lemma StartIsSound()
    ensures TimesAscend(START) && DeploysAreIssued(START) && RecordsExplained(START)
    ensures PointersNameDeployed(START.svc.durable) && FlightsStand(START) && KeyedByOwnId(START.svc.durable)
  {
  }

  lemma {:induction false} CarefulIsDisciplined(s: System, events: seq<Event>, end: System)
    requires ValidRun(s, events) && CarefulRun(s, events) && end == After(s, events)
    requires RestoresApart(end) && TimesAscend(end) && end.svc.lastTimestamp < TIME_LIMIT
    requires TimesAscend(s) && DeploysAreIssued(s) && RecordsExplained(s) && KeyedByOwnId(s.svc.durable)
    ensures DisciplinedRun(s, events)
    decreases |events|
  {
    if events != [] {
      var e, t := events[0], Apply(s, events[0]);
      EventKeepsIssues(s, e);
      EventKeepsExplanations(s, e);
      EventKeepsKeys(s, e);
      RunIsLater(t, events[1..]);
      hide Apply, Enabled, TimesAscend, DeploysAreIssued, RecordsExplained, KeyedByOwnId, RestoresApart, Earlier;
      if e.TakeId? {
        TakenIdIsFresh(s, e, end);
      } else if e.Restore? {
        RestoredIdIsApart(s, e, end);
      }
      CarefulIsDisciplined(t, events[1..], end);
    }
  }

  lemma {:induction false} RunIsLater(s: System, events: seq<Event>)
    requires ValidRun(s, events) && TimesAscend(s)
    ensures Earlier(s, After(s, events))
    decreases |events|
  {
    if events != [] {
      HistoryGrows(s, events[0]);
      IssuesGrow(s, events[0]);
      hide Apply, Enabled, TimesAscend;
      RunIsLater(Apply(s, events[0]), events[1..]);
    }
  }
}

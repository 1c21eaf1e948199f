/** Which artifact a record stands for, in every run of concurrent operations. */
module DeploymentArtifacts {
  import opened Options
  import opened Ulid
  import opened HealthCheck
  import opened Deployment
  import opened DeploymentRuns
  import opened DeploymentSafety

  /** A revision of this function made at this issue: what was computed from the uploaded bytes. */
  predicate MadeAt(i: Issue, p: string, f: string, r: Revision) {
    i.project == p && i.fn == f && r.project == p && r.functionName == f && r.id == "rev_" + Encode(i.time, i.random)
    && r.artifactId == i.artifact.computedId && r.integrity == i.artifact.computedIntegrity
    && r.manifest == i.artifact.manifest && r.createdAt == i.time
  }

  ghost predicate WasMade(issued: seq<Issue>, p: string, f: string, r: Revision) {
    exists n :: 0 <= n < |issued| && MadeAt(issued[n], p, f, r)
  }

  /** Deploys in flight, and records no restore brought in, were made from an artifact given to a
      deploy; and artifacts were only taken with the digests they claim. */
  ghost predicate Traced(s: System) {
    (forall op :: IsDeploy(s, op) ==> WasMade(s.issued, s.flights[op].revision.project, s.flights[op].revision.functionName, s.flights[op].revision))
    && (forall p: string, f: string, k: string ::
          RecordOf(s.svc.durable.revisions, p, f, k).Some? && NotRestored(s.history, p, f, k) ==>
            WasMade(s.issued, p, f, RecordOf(s.svc.durable.revisions, p, f, k).value))
    && forall n :: 0 <= n < |s.issued| ==> HonestDigests(s.issued[n].artifact)
  }

  predicate HonestDigests(a: Artifact) { a.id == a.computedId && a.integrity == a.computedIntegrity }

  lemma StaysMade(issued: seq<Issue>, issued': seq<Issue>, p: string, f: string, r: Revision)
    requires issued <= issued' && WasMade(issued, p, f, r)
    ensures WasMade(issued', p, f, r)
  {
    var n :| 0 <= n < |issued| && MadeAt(issued[n], p, f, r);
    assert issued'[n] == issued[n];
  }

  lemma TakenIsMade(s: System, e: Event)
    requires Enabled(s, e) && e.TakeId?
    ensures var t := Apply(s, e);
      WasMade(t.issued, e.project, e.fn, t.flights[e.op].revision) && t.flights[e.op].revision.project == e.project
      && t.flights[e.op].revision.functionName == e.fn && HonestDigests(t.issued[|s.issued|].artifact)
  {
    assert MadeAt(Apply(s, e).issued[|s.issued|], e.project, e.fn, Apply(s, e).flights[e.op].revision);
  }

  lemma FlightsStayMade(s: System, e: Event, op: nat)
    requires Enabled(s, e) && Traced(s) && s.issued <= Apply(s, e).issued && IsDeploy(Apply(s, e), op)
    ensures var r := Apply(s, e).flights[op].revision; WasMade(Apply(s, e).issued, r.project, r.functionName, r)
  {
    var r := Apply(s, e).flights[op].revision;
    if e.TakeId? && e.op == op {
      TakenIsMade(s, e);
    } else {
      FlightIsKept(s, e, op);
      hide Apply, Enabled, WasMade;
      StaysMade(s.issued, Apply(s, e).issued, r.project, r.functionName, r);
    }
  }

  lemma FlightIsKept(s: System, e: Event, op: nat)
    requires Enabled(s, e) && IsDeploy(Apply(s, e), op) && !(e.TakeId? && e.op == op)
    ensures IsDeploy(s, op) && s.flights[op].revision == Apply(s, e).flights[op].revision
  {
    hide DeployFinished, RolledBack, Restored, Deleted, Passed, GaveUp, RevisionId, Acceptable, RecordOf;
  }

  /** A record a step wrote is the finished deploy's, or a restore's. */
  lemma TouchedIsMade(s: System, e: Event, p: string, f: string, k: string)
    requires Enabled(s, e) && Touches(s, e, p, f, k) && Traced(s) && RecordOf(Apply(s, e).svc.durable.revisions, p, f, k).Some?
    requires NotRestored(Apply(s, e).history, p, f, k)
    ensures e.FinishDeploy? && IsDeploy(s, e.op)
      && RecordOf(Apply(s, e).svc.durable.revisions, p, f, k).value == s.flights[e.op].revision.(state := if Passed(s.flights[e.op].gate, s.flights[e.op].outcomes) then Deployed else Failed)
      && s.flights[e.op].revision.project == p && s.flights[e.op].revision.functionName == f
  {
    if e.Restore? { RestoreShows(s, e); }
    if e.DeleteProject? { UntouchedRecordsStay(s, e, p, f, k); }
    hide TakesOver, Passed, GaveUp, RevisionId, PointerOf, RollbackDecision, Acceptable, WithPointer, NewRevision, WasMade, NotRestored;
  }

  lemma RestoreShows(s: System, e: Event)
    requires Enabled(s, e) && e.Restore?
    ensures !NotRestored(Apply(s, e).history, e.project, e.fn, e.revision.id)
  {
    assert Apply(s, e).history[|s.history|] == RestoreDone(e.project, e.fn, e.revision.id, e.isActive);
  }

  lemma StateIsFree(issued: seq<Issue>, p: string, f: string, r: Revision, state: RevisionState)
    requires WasMade(issued, p, f, r)
    ensures WasMade(issued, p, f, r.(state := state))
  {
    var n :| 0 <= n < |issued| && MadeAt(issued[n], p, f, r);
    assert MadeAt(issued[n], p, f, r.(state := state));
  }

  lemma NotRestoredBefore(h: seq<Completion>, h': seq<Completion>, p: string, f: string, k: string)
    requires h <= h' && NotRestored(h', p, f, k)
    ensures NotRestored(h, p, f, k)
  {
    assert forall i :: 0 <= i < |h| ==> h[i] == h'[i];
  }

  lemma RecordStaysMade(s: System, e: Event, p: string, f: string, k: string)
    requires Enabled(s, e) && Traced(s) && s.issued <= Apply(s, e).issued
    requires RecordOf(Apply(s, e).svc.durable.revisions, p, f, k).Some? && NotRestored(Apply(s, e).history, p, f, k)
    ensures WasMade(Apply(s, e).issued, p, f, RecordOf(Apply(s, e).svc.durable.revisions, p, f, k).value)
  {
    HistoryGrows(s, e);
    NotRestoredBefore(s.history, Apply(s, e).history, p, f, k);
    UntouchedRecordsStay(s, e, p, f, k);
    if Touches(s, e, p, f, k) { TouchedIsMade(s, e, p, f, k); }
    hide Apply, Enabled, Touches, WasMade, RecordOf, NotRestored, Passed;
    var r := RecordOf(Apply(s, e).svc.durable.revisions, p, f, k).value;
    if RecordOf(s.svc.durable.revisions, p, f, k) == Some(r) {
      StaysMade(s.issued, Apply(s, e).issued, p, f, r);
    } else {
      var flown := s.flights[e.op].revision;
      StateIsFree(s.issued, p, f, flown, r.state);
      StaysMade(s.issued, Apply(s, e).issued, p, f, r);
    }
  }

  lemma EventKeepsTrace(s: System, e: Event)
    requires Enabled(s, e) && TimesAscend(s) && Traced(s)
    ensures Traced(Apply(s, e))
  {
    IssuesGrow(s, e);
    var t := Apply(s, e);
    forall op | IsDeploy(t, op) ensures WasMade(t.issued, t.flights[op].revision.project, t.flights[op].revision.functionName, t.flights[op].revision) {
      FlightsStayMade(s, e, op);
    }
    forall p: string, f: string, k: string | RecordOf(t.svc.durable.revisions, p, f, k).Some? && NotRestored(t.history, p, f, k)
      ensures WasMade(t.issued, p, f, RecordOf(t.svc.durable.revisions, p, f, k).value)
    {
      RecordStaysMade(s, e, p, f, k);
    }
    IssuesStayHonest(s, e);
  }

  lemma IssuesStayHonest(s: System, e: Event)
    requires Enabled(s, e) && forall n :: 0 <= n < |s.issued| ==> HonestDigests(s.issued[n].artifact)
    ensures forall n :: 0 <= n < |Apply(s, e).issued| ==> HonestDigests(Apply(s, e).issued[n].artifact)
  {
    hide DeployFinished, RolledBack, Restored, Deleted, Passed, GaveUp, RevisionId, RecordOf;
  }

  lemma {:induction false} RunKeepsTrace(s: System, events: seq<Event>)
    requires ValidRun(s, events) && TimesAscend(s) && Traced(s)
    ensures Traced(After(s, events))
    decreases |events|
  {
    if events != [] {
      EventKeepsTrace(s, events[0]);
      IssuesGrow(s, events[0]);
      RunKeepsTrace(Apply(s, events[0]), events[1..]);
    }
  }

  /** A deploy of an artifact that is what it claims to be, whose bytes are stored and whose three
      probes succeed, goes through from any state: it ends Deployed, and active unless a later
      identifier is. */
  lemma DeployGoesThrough(s: System, op: nat, p: string, f: string, a: Artifact, now: nat, random: Random)
    requires op !in s.flights && ValidArtifactId(a.id) && HonestDigests(a)
    ensures var yes := ProbeDone(op, true);
      var events := [TakeId(op, p, f, a, InProcess, now, random), StoreDone(op, true), yes, yes, yes, FinishDeploy(op)];
      ValidRun(s, events)
      && var t, id := After(s, events), "rev_" + Encode(NextTimestamp(s.svc.lastTimestamp, now), random);
         var was := PointerOf(s.svc.durable.pointers, p, f);
         NamesDeployed(t.svc.durable, p, f, id) && RecordOf(t.svc.durable.revisions, p, f, id).value.artifactId == a.computedId
         && PointerOf(t.svc.durable.pointers, p, f) == if was.Some? && was.value != "" && StringLt(id, was.value) then was else Some(id)
  {
    var time := NextTimestamp(s.svc.lastTimestamp, now);
    var rev := NewRevision(p, f, a, time, random);
    FinishedWell(s.svc.(lastTimestamp := time), rev);
    var s1 := Apply(s, TakeId(op, p, f, a, InProcess, now, random));
    assert s1.flights[op] == Deploying(rev, InProcess, false, []) && s1.svc == s.svc.(lastTimestamp := time);
    assert rev.artifactId == a.computedId && rev.id == "rev_" + Encode(time, random);
    hide Apply, NewRevision, Acceptable, RevisionId, ValidArtifactId, NextTimestamp;
    Probes(s1, op, rev);
    var yes := ProbeDone(op, true);
    var rest := [StoreDone(op, true)] + ([yes] + ([yes] + ([yes] + ([FinishDeploy(op)] + []))));
    hide StringLe, Encode, ValidRun, After, DeployFinished, NamesDeployed;
    StepThen(s, TakeId(op, p, f, a, InProcess, now, random), rest);
    assert [TakeId(op, p, f, a, InProcess, now, random)] + rest
      == [TakeId(op, p, f, a, InProcess, now, random), StoreDone(op, true), yes, yes, yes, FinishDeploy(op)];
  }

  lemma FinishedWell(svc: Service, rev: Revision)
    ensures var d, was := DeployFinished(svc, rev, true).durable, PointerOf(svc.durable.pointers, rev.project, rev.functionName);
      RecordOf(d.revisions, rev.project, rev.functionName, rev.id) == Some(rev.(state := Deployed))
      && NamesDeployed(d, rev.project, rev.functionName, rev.id)
      && PointerOf(d.pointers, rev.project, rev.functionName) == if was.Some? && was.value != "" && StringLt(rev.id, was.value) then was else Some(rev.id)
  {
    var was := PointerOf(svc.durable.pointers, rev.project, rev.functionName);
    if was.Some? { StringLeIsTotalOrder(was.value, rev.id, rev.id); }
    hide StringLe;
  }

  lemma StepThen(s: System, e: Event, rest: seq<Event>)
    requires Enabled(s, e) && ValidRun(Apply(s, e), rest)
    ensures ValidRun(s, [e] + rest) && After(s, [e] + rest) == After(Apply(s, e), rest)
  {
    assert ([e] + rest)[1..] == rest;
  }

  lemma Probes(s: System, op: nat, rev: Revision)
    requires op in s.flights && s.flights[op] == Deploying(rev, InProcess, false, [])
    ensures var yes := ProbeDone(op, true);
      var events := [StoreDone(op, true)] + ([yes] + ([yes] + ([yes] + ([FinishDeploy(op)] + []))));
      ValidRun(s, events) && After(s, events).svc == DeployFinished(s.svc, rev, true)
  {
    hide DeployFinished;
    var yes := ProbeDone(op, true);
    var s1 := Apply(s, StoreDone(op, true));
    var s2 := Apply(s1, yes);
    var s3 := Apply(s2, yes);
    var s4 := Apply(s3, yes);
    assert s4.flights[op] == Deploying(rev, InProcess, true, [true, true, true]) && s4.svc == s.svc;
    hide ValidRun, After;
    NothingThen(Apply(s4, FinishDeploy(op)));
    StepThen(s4, FinishDeploy(op), []);
    StepThen(s3, yes, [FinishDeploy(op)] + []);
    StepThen(s2, yes, [yes] + ([FinishDeploy(op)] + []));
    StepThen(s1, yes, [yes] + ([yes] + ([FinishDeploy(op)] + [])));
    StepThen(s, StoreDone(op, true), [yes] + ([yes] + ([yes] + ([FinishDeploy(op)] + []))));
  }

  lemma NothingThen(s: System)
    ensures ValidRun(s, []) && After(s, []) == s
  {
  }

  predicate DeployEvent(e: Event) { e.TakeId? || e.StoreDone? || e.ProbeDone? || e.FinishDeploy? }

  /** When nothing but deploys happens, nothing but deploys touches any pointer. */
  lemma {:induction false} DeploysTouchOnly(s: System, events: seq<Event>, p: string, f: string)
    requires ValidRun(s, events) && OnlyDeploys(s.history, p, f) && forall i :: 0 <= i < |events| ==> DeployEvent(events[i])
    ensures OnlyDeploys(After(s, events).history, p, f)
    decreases |events|
  {
    if events != [] {
      assert OnlyDeploys(Apply(s, events[0]).history, p, f) by { DeployTouchesOnly(s, events[0], p, f); }
      DeploysTouchOnly(Apply(s, events[0]), events[1..], p, f);
    }
  }

  lemma DeployTouchesOnly(s: System, e: Event, p: string, f: string)
    requires Enabled(s, e) && DeployEvent(e) && OnlyDeploys(s.history, p, f)
    ensures OnlyDeploys(Apply(s, e).history, p, f)
  {
    hide Passed, GaveUp, DeployFinished, NewRevision, Acceptable;
  }

  /** So after any run of deploys alone each function's pointer is its newest healthy revision. */
  lemma DeploysAloneEndAtTheNewest(events: seq<Event>, p: string, f: string)
    requires ValidRun(START, events) && forall i :: 0 <= i < |events| ==> DeployEvent(events[i])
    requires After(START, events).svc.lastTimestamp < TIME_LIMIT
    ensures var s := After(START, events);
      var pointer := PointerOf(s.svc.durable.pointers, p, f);
      if pointer.None? then forall i :: 0 <= i < |s.history| ==> !HealthyDeployOf(s.history[i], p, f)
      else NewestHealthy(s, p, f, pointer.value)
  {
    DeploysTouchOnly(START, events, p, f);
    NewestHealthyRevisionWins(events, p, f);
  }

  /** A restore goes through exactly when no other artifact is on record under its identifier. */
  lemma RestoreGoesThroughIff(s: System, p: string, f: string, rev: Revision, isActive: bool)
    ensures Enabled(s, Restore(p, f, rev, isActive)) <==>
      RecordOf(s.svc.durable.revisions, p, f, rev.id).None? || RecordOf(s.svc.durable.revisions, p, f, rev.id).value.artifactId == rev.artifactId
  {
  }

  predicate StandsFor(i: Issue, p: string, f: string, k: string, r: Revision) {
    i.Id() == k && HonestDigests(i.artifact) && MadeAt(i, p, f, r)
  }

  /** In every run, each record that no restore brought into its function names the artifact and
      integrity computed from the bytes some deploy of that function uploaded, which are those
      the upload claimed, with its manifest, its identifier and the time it was issued. */
  lemma RecordsNameTheirArtifact(events: seq<Event>, p: string, f: string, k: string)
    requires ValidRun(START, events)
    requires var s := After(START, events); RecordOf(s.svc.durable.revisions, p, f, k).Some? && NotRestored(s.history, p, f, k)
    ensures var s := After(START, events);
      exists n :: 0 <= n < |s.issued| && StandsFor(s.issued[n], p, f, k, RecordOf(s.svc.durable.revisions, p, f, k).value)
  {
    StartIsTraced();
    hide *;
    RunKeepsTrace(START, events);
    RunKeepsKeys(START, events);
    TracedRecord(After(START, events), p, f, k);
  }

  lemma StartIsTraced()
    ensures Traced(START) && TimesAscend(START) && KeyedByOwnId(START.svc.durable)
  {
  }

  lemma TracedRecord(s: System, p: string, f: string, k: string)
    requires Traced(s) && KeyedByOwnId(s.svc.durable) && RecordOf(s.svc.durable.revisions, p, f, k).Some? && NotRestored(s.history, p, f, k)
    ensures exists n :: 0 <= n < |s.issued| && StandsFor(s.issued[n], p, f, k, RecordOf(s.svc.durable.revisions, p, f, k).value)
  {
    hide NotRestored, HonestDigests;
    assert WasMade(s.issued, p, f, RecordOf(s.svc.durable.revisions, p, f, k).value);
  }
}

/**
  Interleaved deploys, rollbacks, restores and project deletions.

  Every await of apps/api/deployment-service.ts is a step boundary: a run is any
  sequence of the pieces of concurrent operations.  `history` records, in order of
  completion, what each finished operation did.
*/
module DeploymentRuns {
  import opened Options
  import opened Ulid
  import opened HealthCheck
  import opened Deployment

  /** An operation suspended at an await. */
  datatype Flight =
    | Deploying(revision: Revision, gate: Gate, stored: bool, outcomes: seq<bool>)
    | RollingBack(project: string, fn: string, target: string, read: Option<Revision>)

  datatype Completion =
    | DeployDone(project: string, fn: string, id: string, healthy: bool, gate: Gate, outcomes: seq<bool>)
    | RollbackDone(project: string, fn: string, target: string)
    | RestoreDone(project: string, fn: string, id: string, isActive: bool)
    | DeleteDone(project: string)

  /** The time and randomness an identifier was made from, and for which function and artifact. */
  datatype Issue = Issue(time: nat, random: Random, project: string, fn: string, artifact: Artifact) {
    function Id(): string { RevisionId(time, random) }
  }

  datatype System = System(svc: Service, flights: map<nat, Flight>, issued: seq<Issue>, history: seq<Completion>)

  datatype Event =
    | TakeId(op: nat, project: string, fn: string, artifact: Artifact, gate: Gate, now: nat, random: Random)
    | StoreDone(op: nat, ok: bool)
    | ProbeDone(op: nat, success: bool)
    | FinishDeploy(op: nat)
    | ReadForRollback(op: nat, project: string, fn: string, target: string)
    | FlipForRollback(op: nat)
    | Restore(project: string, fn: string, revision: Revision, isActive: bool)
    | DeleteProject(project: string)

  const START: System := System(Service(EMPTY, 0, false, false, 0), map[], [], [])

  predicate Enabled(s: System, e: Event) {
    match e
    case TakeId(op, _, _, artifact, _, _, _) => op !in s.flights && Acceptable(artifact)
    case StoreDone(op, _) => op in s.flights && s.flights[op].Deploying? && !s.flights[op].stored
    case ProbeDone(op, _) =>
      op in s.flights && s.flights[op].Deploying? && s.flights[op].stored
      && !Passed(s.flights[op].gate, s.flights[op].outcomes)
      && (s.flights[op].gate.InProcess? ==> !GaveUp(InProcess, s.flights[op].outcomes))
    case FinishDeploy(op) =>
      op in s.flights && s.flights[op].Deploying? && s.flights[op].stored
      && (Passed(s.flights[op].gate, s.flights[op].outcomes) || GaveUp(s.flights[op].gate, s.flights[op].outcomes))
    case ReadForRollback(op, _, _, _) => op !in s.flights
    case FlipForRollback(op) => op in s.flights && s.flights[op].RollingBack?
    case Restore(project, fn, revision, _) => !RestoreConflicts(s.svc.durable, project, fn, revision)
    case DeleteProject(_) => true
  }

  function Apply(s: System, e: Event): System
    requires Enabled(s, e)
  {
    match e
    case TakeId(op, project, fn, artifact, gate, now, random) =>
      var time := NextTimestamp(s.svc.lastTimestamp, now);
      var rev := NewRevision(project, fn, artifact, time, random);
      s.(svc := s.svc.(lastTimestamp := time), issued := s.issued + [Issue(time, random, project, fn, artifact)],
         flights := s.flights[op := Deploying(rev, gate, false, [])])
    case StoreDone(op, ok) =>
      s.(flights := if ok then s.flights[op := s.flights[op].(stored := true)] else s.flights - {op})
    case ProbeDone(op, success) =>
      s.(flights := s.flights[op := s.flights[op].(outcomes := s.flights[op].outcomes + [success])])
    case FinishDeploy(op) =>
      var f := s.flights[op];
      var healthy := Passed(f.gate, f.outcomes);
      s.(svc := DeployFinished(s.svc, f.revision, healthy), flights := s.flights - {op},
         history := s.history + [DeployDone(f.revision.project, f.revision.functionName, f.revision.id, healthy, f.gate, f.outcomes)])
    case ReadForRollback(op, project, fn, target) =>
      s.(flights := s.flights[op := RollingBack(project, fn, target, RecordOf(s.svc.durable.revisions, project, fn, target))])
    case FlipForRollback(op) =>
      var f := s.flights[op];
      if RollbackDecision(f.read).Some? then s.(flights := s.flights - {op})
      else
        s.(svc := RolledBack(s.svc, f.project, f.fn, f.target), flights := s.flights - {op},
           history := s.history + [RollbackDone(f.project, f.fn, f.target)])
    case Restore(project, fn, revision, isActive) =>
      s.(svc := Restored(s.svc, project, fn, revision, isActive),
         history := s.history + [RestoreDone(project, fn, revision.id, isActive)])
    case DeleteProject(project) =>
      s.(svc := Deleted(s.svc, project), history := s.history + [DeleteDone(project)])
  }

  predicate ValidRun(s: System, events: seq<Event>)
    decreases |events|
  {
    events == [] || (Enabled(s, events[0]) && ValidRun(Apply(s, events[0]), events[1..]))
  }

  function After(s: System, events: seq<Event>): System
    requires ValidRun(s, events)
    decreases |events|
  {
    if events == [] then s else After(Apply(s, events[0]), events[1..])
  }

  // ---------------------------------------------------------------- the pointer is a fold

  function Later(a: Option<string>, id: string): Option<string> {
    if a.Some? && !StringLe(a.value, id) then a else Some(id)
  }

  function FoldOne(pointer: Option<string>, c: Completion, project: string, fn: string): Option<string> {
    match c
    case DeployDone(p, f, id, healthy, _, _) => if p == project && f == fn && healthy then Later(pointer, id) else pointer
    case RollbackDone(p, f, target) => if p == project && f == fn then Some(target) else pointer
    case RestoreDone(p, f, id, isActive) => if p == project && f == fn && isActive then Some(id) else pointer
    case DeleteDone(p) => if p == project then None else pointer
  }

  /** Completions folded in order: a healthy deploy keeps the later identifier, a
      rollback or active restore sets its target, a deletion clears. */
  function Fold(history: seq<Completion>, project: string, fn: string): Option<string> {
    if history == [] then None
    else FoldOne(Fold(history[..|history| - 1], project, fn), history[|history| - 1], project, fn)
  }

  ghost predicate PointersAreFolds(s: System) {
    forall p: string, f: string :: PointerOf(s.svc.durable.pointers, p, f) == Fold(s.history, p, f)
  }

  lemma EventKeepsFold(s: System, e: Event)
    requires Enabled(s, e) && PointersAreFolds(s)
    ensures PointersAreFolds(Apply(s, e))
  {
    hide Passed, GaveUp, RevisionId, Acceptable, RecordOf;
    var t := Apply(s, e);
    forall p: string, f: string
      ensures PointerOf(t.svc.durable.pointers, p, f) == Fold(t.history, p, f)
    {
      if |t.history| > |s.history| {
        assert t.history[..|t.history| - 1] == s.history;
      }
    }
  }

  /** For every interleaving, each active pointer is the fold over completion order. */
  lemma {:induction false} PointerIsFoldOfCompletions(s: System, events: seq<Event>)
    requires ValidRun(s, events) && PointersAreFolds(s)
    ensures PointersAreFolds(After(s, events))
    decreases |events|
  {
    if events != [] {
      EventKeepsFold(s, events[0]);
      PointerIsFoldOfCompletions(Apply(s, events[0]), events[1..]);
    }
  }

  // ---------------------------------------------------------------- the newest healthy revision wins

  predicate HealthyDeployOf(c: Completion, project: string, fn: string) {
    c.DeployDone? && c.project == project && c.fn == fn && c.healthy
  }

  /** Nothing but deploys touched the function's pointer. */
  predicate OnlyDeploys(history: seq<Completion>, project: string, fn: string) {
    forall i :: 0 <= i < |history| ==>
      match history[i]
      case DeployDone(_, _, _, _, _, _) => true
      case RollbackDone(p, f, _) => !(p == project && f == fn)
      case RestoreDone(p, f, _, isActive) => !(p == project && f == fn && isActive)
      case DeleteDone(p) => p != project
  }

  /** `id` is the greatest identifier among the healthy deploys. */
  ghost predicate GreatestHealthy(history: seq<Completion>, project: string, fn: string, id: string) {
    (exists i :: 0 <= i < |history| && HealthyDeployOf(history[i], project, fn) && history[i].id == id)
    && forall i :: 0 <= i < |history| && HealthyDeployOf(history[i], project, fn) ==> StringLe(history[i].id, id)
  }

  lemma {:induction false} FoldIsGreatest(history: seq<Completion>, project: string, fn: string)
    requires OnlyDeploys(history, project, fn)
    ensures var r := Fold(history, project, fn);
      if r.None? then forall i :: 0 <= i < |history| ==> !HealthyDeployOf(history[i], project, fn)
      else GreatestHealthy(history, project, fn, r.value)
  {
    hide StringLe;
    if history != [] {
      var n := |history| - 1;
      var before, c := history[..n], history[n];
      FoldIsGreatest(before, project, fn);
      var old', r := Fold(before, project, fn), Fold(history, project, fn);
      if old'.Some? {
        var i :| 0 <= i < n && HealthyDeployOf(before[i], project, fn) && before[i].id == old'.value;
        assert HealthyDeployOf(history[i], project, fn) && history[i].id == old'.value;
      }
      if HealthyDeployOf(c, project, fn) {
        StringLeIsTotalOrder(c.id, c.id, c.id);
        if old'.Some? {
          StringLeIsTotalOrder(old'.value, c.id, c.id);
        }
        forall i | 0 <= i <= n && HealthyDeployOf(history[i], project, fn)
          ensures StringLe(history[i].id, r.value)
        {
          if i < n {
            assert before[i] == history[i];
            StringLeIsTotalOrder(history[i].id, old'.value, c.id);
          }
        }
        assert exists i :: 0 <= i < |history| && HealthyDeployOf(history[i], project, fn) && history[i].id == r.value;
      } else {
        assert r == old';
        forall i | 0 <= i <= n && HealthyDeployOf(history[i], project, fn)
          ensures r.Some? && StringLe(history[i].id, r.value)
        {
          assert before[i] == history[i];
        }
      }
    }
  }

  /** The order in which deploys finish does not matter. */
  lemma CompletionOrderIsIrrelevant(h1: seq<Completion>, h2: seq<Completion>, project: string, fn: string)
    requires multiset(h1) == multiset(h2) && OnlyDeploys(h1, project, fn)
    ensures Fold(h1, project, fn) == Fold(h2, project, fn)
  {
    forall i | 0 <= i < |h2| ensures h2[i] in h1 {
      assert h2[i] in multiset(h2);
    }
    forall i | 0 <= i < |h1| ensures h1[i] in h2 {
      assert h1[i] in multiset(h1);
    }
    FoldIsGreatest(h1, project, fn);
    FoldIsGreatest(h2, project, fn);
    var r1, r2 := Fold(h1, project, fn), Fold(h2, project, fn);
    if r1.Some? && r2.Some? {
      StringLeIsTotalOrder(r1.value, r2.value, r1.value);
    }
  }

  // ---------------------------------------------------------------- identifiers grow

  ghost predicate TimesAscend(s: System) {
    && (forall i :: 0 <= i < |s.issued| ==> s.issued[i].time <= s.svc.lastTimestamp)
    && (forall i, j :: 0 <= i < j < |s.issued| ==> s.issued[i].time < s.issued[j].time)
  }

  /** Every deploy, in flight or finished, carries an identifier this service issued. */
  ghost predicate DeploysAreIssued(s: System) {
    && (forall op :: op in s.flights && s.flights[op].Deploying? ==> IsIssued(s, s.flights[op].revision.id))
    && (forall i :: 0 <= i < |s.history| && s.history[i].DeployDone? ==> IsIssued(s, s.history[i].id))
  }

  ghost predicate IsIssued(s: System, id: string) {
    exists i :: 0 <= i < |s.issued| && s.issued[i].Id() == id
  }

  lemma IssuesGrow(s: System, e: Event)
    requires Enabled(s, e) && TimesAscend(s)
    ensures TimesAscend(Apply(s, e)) && s.issued <= Apply(s, e).issued && s.svc.lastTimestamp <= Apply(s, e).svc.lastTimestamp
  {
    hide RevisionId, Passed, GaveUp, Acceptable, RecordOf, PointerOf, TakesOver;
  }

  lemma EventKeepsIssues(s: System, e: Event)
    requires Enabled(s, e) && TimesAscend(s) && DeploysAreIssued(s)
    ensures TimesAscend(Apply(s, e)) && DeploysAreIssued(Apply(s, e))
    ensures s.issued <= Apply(s, e).issued && s.svc.lastTimestamp <= Apply(s, e).svc.lastTimestamp
  {
    hide RevisionId, Passed, GaveUp, Acceptable, RecordOf, PointerOf, TakesOver;
    var t := Apply(s, e);
    IssuesGrow(s, e);
    forall id | IsIssued(s, id) ensures IsIssued(t, id) {
      var i :| 0 <= i < |s.issued| && s.issued[i].Id() == id;
      assert t.issued[i].Id() == id;
    }
    if e.TakeId? {
      assert t.issued[|s.issued|].Id() == t.flights[e.op].revision.id;
    }
  }

  lemma {:induction false} IssuesThroughRun(s: System, events: seq<Event>)
    requires ValidRun(s, events) && TimesAscend(s) && DeploysAreIssued(s)
    ensures TimesAscend(After(s, events)) && DeploysAreIssued(After(s, events))
    decreases |events|
  {
    if events != [] {
      EventKeepsIssues(s, events[0]);
      IssuesThroughRun(Apply(s, events[0]), events[1..]);
    }
  }

  /** Identifiers sort in the order they were issued, while timestamps fit ten digits. */
  lemma IssueOrderIsStringOrder(s: System, i: nat, j: nat)
    requires TimesAscend(s) && i < j < |s.issued| && s.svc.lastTimestamp < TIME_LIMIT
    ensures StringLt(s.issued[i].Id(), s.issued[j].Id())
  {
    hide StringLe, Encode;
    LaterSortsAfter(s.issued[i].time, s.issued[i].random, s.issued[j].time, s.issued[j].random);
    SamePrefix(REVISION_ID_PREFIX, Encode(s.issued[i].time, s.issued[i].random), Encode(s.issued[j].time, s.issued[j].random));
    var a, b := s.issued[i].Id(), s.issued[j].Id();
    assert a[4..] == Encode(s.issued[i].time, s.issued[i].random) && b[4..] == Encode(s.issued[j].time, s.issued[j].random);
  }

  /** `id` belongs to a healthy deploy, and no healthy deploy's identifier was issued after it. */
  ghost predicate NewestHealthy(s: System, project: string, fn: string, id: string) {
    (exists i :: 0 <= i < |s.history| && HealthyDeployOf(s.history[i], project, fn) && s.history[i].id == id)
    && exists n :: 0 <= n < |s.issued| && s.issued[n].Id() == id && NoneIssuedAfter(s, project, fn, n)
  }

  ghost predicate NoneIssuedAfter(s: System, project: string, fn: string, n: nat) {
    forall i, m | 0 <= i < |s.history| && HealthyDeployOf(s.history[i], project, fn) && 0 <= m < |s.issued| ::
      s.issued[m].Id() == s.history[i].id ==> m <= n
  }

  /** Whatever order concurrent deploys finish in, the pointer ends at the healthy
      revision that was issued last. */
  lemma NewestHealthyRevisionWins(events: seq<Event>, project: string, fn: string)
    requires ValidRun(START, events)
    requires var s := After(START, events); OnlyDeploys(s.history, project, fn) && s.svc.lastTimestamp < TIME_LIMIT
    ensures var s := After(START, events);
      var pointer := PointerOf(s.svc.durable.pointers, project, fn);
      if pointer.None? then forall i :: 0 <= i < |s.history| ==> !HealthyDeployOf(s.history[i], project, fn)
      else NewestHealthy(s, project, fn, pointer.value)
  {
    hide StringLe, RevisionId;
    var s := After(START, events);
    PointerIsFoldOfCompletions(START, events);
    IssuesThroughRun(START, events);
    FoldIsGreatest(s.history, project, fn);
    var pointer := PointerOf(s.svc.durable.pointers, project, fn);
    if pointer.Some? {
      var n :| 0 <= n < |s.issued| && s.issued[n].Id() == pointer.value;
      forall i, m | 0 <= i < |s.history| && HealthyDeployOf(s.history[i], project, fn) && 0 <= m < |s.issued| && s.issued[m].Id() == s.history[i].id
        ensures m <= n
      {
        if n < m {
          IssueOrderIsStringOrder(s, n, m);
          StringLeIsTotalOrder(s.issued[m].Id(), s.issued[n].Id(), pointer.value);
        }
      }
    }
  }
}

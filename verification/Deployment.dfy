/**
  The control plane's deployment service (apps/api/deployment-service.ts).

  Its nested maps, timestamp and persistence flags are the fields of
  `DeploymentService`.  An async method is cut at its awaits: each piece below runs
  without interruption and is proved against a function on the service's value.
*/
module Deployment {
  import opened Options
  import opened Ulid

  datatype RevisionState = Created | Building | Ready | Deployed | Failed | Suspended

  datatype Revision = Revision(
    id: string, project: string, functionName: string, artifactId: string, integrity: string,
    state: RevisionState, createdAt: int, manifest: string)

  /** The uploaded bundle together with the digests computed from its bytes. */
  datatype Artifact = Artifact(id: string, integrity: string, manifest: string, computedId: string, computedIntegrity: string)

  datatype RouteDecl = RouteDecl(pattern: string, target: string)

  datatype Metadata = Metadata(environment: Option<string>, domains: Option<seq<string>>)

  datatype Error = ValidationFailed | ResourceNotFound | Conflict

  datatype DeploymentResult = DeploymentResult(revisionId: string, state: RevisionState, active: bool)

  type Random = r: seq<Byte> | |r| == 10 witness [0, 0, 0, 0, 0, 0, 0, 0, 0, 0]

  type Records = map<string, map<string, map<string, Revision>>>

  type Pointers = map<string, map<string, string>>

  /** What a persisted snapshot holds. */
  datatype Durable = Durable(revisions: Records, pointers: Pointers, routes: map<string, seq<RouteDecl>>, metadata: map<string, Metadata>)

  /** The whole service: durable state, clock, and the flags of the persist chain.
      `pending` counts the chained writes that have not begun. */
  datatype Service = Service(durable: Durable, lastTimestamp: nat, persistent: bool, queued: bool, pending: nat)

  const EMPTY: Durable := Durable(map[], map[], map[], map[])

  const REVISION_ID_PREFIX: string := "rev_"

  // ---------------------------------------------------------------- nested maps

  function PointerOf(ps: Pointers, project: string, fn: string): Option<string> {
    if project in ps && fn in ps[project] then Some(ps[project][fn]) else None
  }

  function WithPointer(ps: Pointers, project: string, fn: string, id: string): (r: Pointers)
    ensures forall p: string, f: string :: PointerOf(r, p, f) == if p == project && f == fn then Some(id) else PointerOf(ps, p, f)
  {
    ps[project := (if project in ps then ps[project] else map[])[fn := id]]
  }

  function RecordOf(rs: Records, project: string, fn: string, id: string): Option<Revision> {
    if project in rs && fn in rs[project] && id in rs[project][fn] then Some(rs[project][fn][id]) else None
  }

  function WithRecord(rs: Records, project: string, fn: string, rev: Revision): (r: Records)
    ensures forall p: string, f: string, k: string ::
      RecordOf(r, p, f, k) == if p == project && f == fn && k == rev.id then Some(rev) else RecordOf(rs, p, f, k)
  {
    var fnMap := if project in rs then rs[project] else map[];
    var revMap := if fn in fnMap then fnMap[fn] else map[];
    rs[project := fnMap[fn := revMap[rev.id := rev]]]
  }

  predicate NamesDeployed(d: Durable, p: string, f: string, id: string) {
    RecordOf(d.revisions, p, f, id).Some? && RecordOf(d.revisions, p, f, id).value.state == Deployed
  }

  // ---------------------------------------------------------------- value-level steps

  predicate HexDigit(c: char) { '0' <= c <= '9' || 'a' <= c <= 'f' }

  predicate ValidArtifactId(id: string) {
    |id| == 71 && id[..7] == "sha256:" && forall i :: 7 <= i < 71 ==> HexDigit(id[i])
  }

  /** An artifact's identifier is "sha256:" and 64 lower-case hexadecimal digits. */
  lemma ArtifactIdIff(id: string)
    ensures ValidArtifactId(id) <==>
      exists hex: string :: |hex| == 64 && id == "sha256:" + hex && forall i :: 0 <= i < 64 ==> hex[i] in "0123456789abcdef"
  {
    if ValidArtifactId(id) {
      assert id == "sha256:" + id[7..];
      assert forall i :: 0 <= i < 64 ==> id[7..][i] == id[i + 7];
    }
  }

  predicate Acceptable(a: Artifact) {
    ValidArtifactId(a.id) && a.id == a.computedId && a.integrity == a.computedIntegrity
  }

  function NextTimestamp(last: nat, now: nat): (t: nat)
    ensures last < t && now <= t
    ensures t == last + 1 || t == now
  {
    if now <= last then last + 1 else now
  }

  function RevisionId(time: nat, random: Random): string { REVISION_ID_PREFIX + Encode(time, random) }

  function Scheduled(s: Service): Service {
    if s.persistent then s.(queued := true, pending := s.pending + 1) else s
  }

  /** The revision a deploy builds once its artifact is accepted; by the health gate it is Ready. */
  function NewRevision(project: string, fn: string, a: Artifact, time: nat, random: Random): Revision {
    Revision(RevisionId(time, random), project, fn, a.id, a.integrity, Ready, time, a.manifest)
  }

  /** A finished deploy takes over unless the active revision sorts after it. */
  function TakesOver(current: Option<string>, id: string): bool {
    current.None? || current.value == "" || StringLe(current.value, id)
  }

  function DeployFinished(s: Service, rev: Revision, healthy: bool): Service {
    var d := s.durable;
    var saved := WithRecord(d.revisions, rev.project, rev.functionName, rev.(state := if healthy then Deployed else Failed));
    var pointers :=
      if healthy && TakesOver(PointerOf(d.pointers, rev.project, rev.functionName), rev.id)
      then WithPointer(d.pointers, rev.project, rev.functionName, rev.id) else d.pointers;
    Scheduled(s.(durable := d.(revisions := saved, pointers := pointers)))
  }

  /** A rollback decides on the record it read before its await. */
  function RollbackDecision(read: Option<Revision>): Option<Error> {
    match read
    case None => Some(ResourceNotFound)
    case Some(rev) => if rev.state != Deployed then Some(ValidationFailed) else None
  }

  function RolledBack(s: Service, project: string, fn: string, target: string): Service {
    Scheduled(s.(durable := s.durable.(pointers := WithPointer(s.durable.pointers, project, fn, target))))
  }

  function RestoreConflicts(d: Durable, project: string, fn: string, rev: Revision): bool {
    var existing := RecordOf(d.revisions, project, fn, rev.id);
    existing.Some? && existing.value.artifactId != rev.artifactId
  }

  function Restored(s: Service, project: string, fn: string, rev: Revision, isActive: bool): Service {
    var d := s.durable;
    var revisions :=
      if RecordOf(d.revisions, project, fn, rev.id).Some? then d.revisions
      else WithRecord(d.revisions, project, fn, rev.(project := project, functionName := fn));
    if isActive then
      Scheduled(s.(durable := d.(revisions := revisions, pointers := WithPointer(d.pointers, project, fn, rev.id))))
    else s.(durable := d.(revisions := revisions))
  }

  function Deleted(s: Service, project: string): Service {
    var d := s.durable;
    if project in d.revisions || project in d.pointers || project in d.routes || project in d.metadata then
      Scheduled(s.(durable := Durable(d.revisions - {project}, d.pointers - {project}, d.routes - {project}, d.metadata - {project})))
    else s
  }

  // ---------------------------------------------------------------- the class

  class DeploymentService {
    const persistencePath: Option<string>
    var revisions: Records
    var activePointers: Pointers
    var projectRoutes: map<string, seq<RouteDecl>>
    var projectMetadata: map<string, Metadata>
    var lastTimestamp: nat
    var persistQueued: bool
    var persistChain: nat

    function View(): Service
      reads this
    {
      Service(Durable(revisions, activePointers, projectRoutes, projectMetadata), lastTimestamp, persistencePath.Some?, persistQueued, persistChain)
    }

    /** `hydrated` is what the persistence file held, if there was a readable one. */
    constructor (persistencePath: Option<string>, hydrated: Option<Durable>)
      ensures this.persistencePath == persistencePath
      ensures View() == Service(if persistencePath.Some? then hydrated.GetOr(EMPTY) else EMPTY, 0, persistencePath.Some?, false, 0)
    {
      var initial := if persistencePath.Some? then hydrated.GetOr(EMPTY) else EMPTY;
      this.persistencePath := persistencePath;
      revisions, activePointers := initial.revisions, initial.pointers;
      projectRoutes, projectMetadata := initial.routes, initial.metadata;
      lastTimestamp, persistQueued, persistChain := 0, false, 0;
    }

    method SchedulePersist()
      modifies this`persistQueued, this`persistChain
      ensures View() == Scheduled(old(View()))
    {
      if persistencePath.None? { return; }
      persistQueued := true;
      persistChain := persistChain + 1;
    }

    method NextMonotonicTimestamp(now: nat) returns (t: nat)
      modifies this`lastTimestamp
      ensures t == NextTimestamp(old(lastTimestamp), now) && View() == old(View()).(lastTimestamp := t)
    {
      if now <= lastTimestamp {
        lastTimestamp := lastTimestamp + 1;
      } else {
        lastTimestamp := now;
      }
      return lastTimestamp;
    }

    method SetActivePointer(project: string, fn: string, id: string)
      modifies this`activePointers
      ensures activePointers == WithPointer(old(activePointers), project, fn, id)
    {
      if project !in activePointers {
        activePointers := activePointers[project := map[]];
      }
      activePointers := activePointers[project := activePointers[project][fn := id]];
    }

    method SaveRevisionRecord(project: string, fn: string, rev: Revision)
      modifies this`revisions
      ensures revisions == WithRecord(old(revisions), project, fn, rev)
    {
      if project !in revisions {
        revisions := revisions[project := map[]];
      }
      var fnMap := revisions[project];
      if fn !in fnMap {
        fnMap := fnMap[fn := map[]];
      }
      fnMap := fnMap[fn := fnMap[fn][rev.id := rev]];
      revisions := revisions[project := fnMap];
      assert revisions[project] == WithRecord(old(revisions), project, fn, rev)[project];
    }

    /** A deploy up to its first storage write. */
    method BeginDeploy(project: string, fn: string, artifact: Artifact, now: nat, random: Random) returns (r: Result<Revision, Error>)
      modifies this
      ensures r.Ok? <==>
        ValidArtifactId(artifact.id) && artifact.id == artifact.computedId && artifact.integrity == artifact.computedIntegrity
      ensures r.Ok? ==>
        var time := NextTimestamp(old(lastTimestamp), now);
        r.value == NewRevision(project, fn, artifact, time, random) && View() == old(View()).(lastTimestamp := time)
      ensures r.Ok? ==>
        var rev := r.value;
        rev.artifactId == artifact.computedId && rev.integrity == artifact.computedIntegrity && rev.manifest == artifact.manifest
        && rev.createdAt == lastTimestamp && rev.id == "rev_" + Encode(lastTimestamp, random)
        && rev.project == project && rev.functionName == fn && rev.state == Ready
      ensures r.Err? ==> r.error == ValidationFailed && View() == old(View())
    {
      if !ValidArtifactId(artifact.id) { return Err(ValidationFailed); }
      if artifact.id != artifact.computedId || artifact.integrity != artifact.computedIntegrity {
        return Err(ValidationFailed);
      }
      var createdAt := NextMonotonicTimestamp(now);
      var ulid := GenerateUlid(createdAt, random);
      var revision := Revision(REVISION_ID_PREFIX + ulid, project, fn, artifact.id, artifact.integrity, Created, createdAt, artifact.manifest);
      revision := revision.(state := Building);
      revision := revision.(state := Ready);
      return Ok(revision);
    }

    /** A deploy after its health gate. */
    method FinishDeploy(rev: Revision, healthy: bool) returns (r: DeploymentResult)
      modifies this
      ensures View() == DeployFinished(old(View()), rev, healthy)
      ensures r == DeploymentResult(rev.id, if healthy then Deployed else Failed,
                     healthy && TakesOver(PointerOf(old(activePointers), rev.project, rev.functionName), rev.id))
    {
      if healthy {
        SaveRevisionRecord(rev.project, rev.functionName, rev.(state := Deployed));
        var active := false;
        var current := PointerOf(activePointers, rev.project, rev.functionName);
        if current.None? || current.value == "" || StringLe(current.value, rev.id) {
          SetActivePointer(rev.project, rev.functionName, rev.id);
          active := true;
        }
        SchedulePersist();
        r := DeploymentResult(rev.id, Deployed, active);
      } else {
        SaveRevisionRecord(rev.project, rev.functionName, rev.(state := Failed));
        SchedulePersist();
        r := DeploymentResult(rev.id, Failed, false);
      }
    }

    function GetRevision(project: string, fn: string, id: string): Option<Revision>
      reads this
    {
      RecordOf(revisions, project, fn, id)
    }

    /** A rollback after its await, deciding on the record read before it. */
    method FinishRollback(project: string, fn: string, target: string, read: Option<Revision>) returns (r: Result<(string, string), Error>)
      modifies this
      ensures r.Err? <==> RollbackDecision(read).Some?
      ensures r.Err? ==> r.error == RollbackDecision(read).value && View() == old(View())
      ensures r.Ok? ==> View() == RolledBack(old(View()), project, fn, target)
      ensures r.Ok? ==> r.value == (PointerOf(old(activePointers), project, fn).GetOr(""), target)
    {
      if read.None? { return Err(ResourceNotFound); }
      if read.value.state != Deployed { return Err(ValidationFailed); }
      var previous := PointerOf(activePointers, project, fn).GetOr("");
      SetActivePointer(project, fn, target);
      SchedulePersist();
      return Ok((previous, target));
    }

    method RestoreRevision(project: string, fn: string, rev: Revision, isActive: bool) returns (r: Option<Error>)
      modifies this
      ensures r.Some? <==> RestoreConflicts(old(View()).durable, project, fn, rev)
      ensures r.Some? ==> r.value == Conflict && View() == old(View())
      ensures r.None? ==> View() == Restored(old(View()), project, fn, rev, isActive)
    {
      var existing := RecordOf(revisions, project, fn, rev.id);
      if existing.Some? {
        if existing.value.artifactId != rev.artifactId { return Some(Conflict); }
      } else {
        SaveRevisionRecord(project, fn, rev.(project := project, functionName := fn));
      }
      if isActive {
        SetActivePointer(project, fn, rev.id);
        SchedulePersist();
      }
      return None;
    }

    method SetProjectRoutes(project: string, routes: seq<RouteDecl>)
      modifies this
      ensures View() == Scheduled(old(View()).(durable := old(View()).durable.(routes := old(projectRoutes)[project := routes])))
    {
      projectRoutes := projectRoutes[project := routes];
      SchedulePersist();
    }

    method SetProjectMetadata(project: string, meta: Metadata)
      modifies this
      ensures View() == Scheduled(old(View()).(durable := old(View()).durable.(metadata := old(projectMetadata)[project := meta])))
    {
      projectMetadata := projectMetadata[project := meta];
      SchedulePersist();
    }

    method DeleteProject(project: string) returns (existed: bool)
      modifies this
      ensures View() == Deleted(old(View()), project)
      ensures revisions == old(revisions) - {project} && activePointers == old(activePointers) - {project}
      ensures projectRoutes == old(projectRoutes) - {project} && projectMetadata == old(projectMetadata) - {project}
      ensures existed <==> project in old(revisions) || project in old(activePointers) || project in old(projectRoutes) || project in old(projectMetadata)
    {
      existed := project in revisions || project in activePointers || project in projectRoutes || project in projectMetadata;
      revisions := revisions - {project};
      activePointers := activePointers - {project};
      projectRoutes := projectRoutes - {project};
      projectMetadata := projectMetadata - {project};
      if existed {
        SchedulePersist();
      }
    }
  }
}

/**
  The two ends of snapshot distribution with their fields: the control plane's snapshot
  map (apps/api/control-server.ts) and the runtime's snapshots, call chains, code cache and
  log ring (apps/runtime/runtime-server.ts).
*/
module SnapshotServers {
  import opened Options
  import opened EntityTags
  import opened SnapshotProtocol

  class ControlPlane {
    var snapshotStates: map<string, ProjectState>

    constructor ()
      ensures snapshotStates == map[]
    {
      snapshotStates := map[];
    }

    function StateOf(projectId: string): Option<ProjectState>
      reads this
    {
      if projectId in snapshotStates then Some(snapshotStates[projectId]) else None
    }

    /** getProjectSnapshot after its last await, `es` being the entries it read. */
    method FinishProjectSnapshot(projectId: string, es: seq<Entry>, live: Live) returns (snapshot: Snapshot)
      modifies this
      ensures snapshotStates == old(snapshotStates)[projectId := Finished(old(StateOf(projectId)), live, es)]
      ensures snapshot == snapshotStates[projectId].snapshot
      ensures var was, now := old(StateOf(projectId)), snapshotStates[projectId];
        if was.Some? && was.value.fingerprint == Fingerprint(es) then now == was.value
        else now.fingerprint == Fingerprint(es) && snapshot.version == now.currentVersion == (if was.None? then 0 else was.value.currentVersion) + 1
             && snapshot.functions == es && snapshot.meta == live.meta && RoutesServe(live.routes, es, snapshot.routes)
    {
      var fingerprint := Fingerprint(es);
      var routes := if live.routes.Some? && |live.routes.value| > 0 then live.routes.value
                    else seq(|es|, i requires 0 <= i < |es| => Route("/" + es[i].fn, es[i].fn));
      if projectId !in snapshotStates {
        var first := Snapshot(1, routes, es, live.meta);
        snapshotStates := snapshotStates[projectId := ProjectState(1, first, fingerprint)];
      } else if snapshotStates[projectId].fingerprint != fingerprint {
        var version := snapshotStates[projectId].currentVersion + 1;
        snapshotStates := snapshotStates[projectId := ProjectState(version, Snapshot(version, routes, es, live.meta), fingerprint)];
      } else {
        assert snapshotStates == snapshotStates[projectId := snapshotStates[projectId]];
      }
      snapshot := snapshotStates[projectId].snapshot;
    }

    method InvalidateProjectSnapshot(projectId: string)
      modifies this
      ensures StateOf(projectId) == Dirty(old(StateOf(projectId)))
      ensures snapshotStates.Keys == old(snapshotStates.Keys)
      ensures forall p :: p in snapshotStates && p != projectId ==> snapshotStates[p] == old(snapshotStates)[p]
    {
      if projectId in snapshotStates {
        snapshotStates := snapshotStates[projectId := snapshotStates[projectId].(fingerprint := "")];
      }
    }

    /** The end of a snapshot request carrying the version `have`, if any. */
    method AnswerPoll(have: Option<nat>, snapshot: Snapshot) returns (r: Response)
      ensures r == Answer(have, snapshot)
      ensures r.NotModified? <==> have == Some(snapshot.version)
    {
      if have.Some? {
        VersionsMatchIff(have.value, snapshot.version);
        var matches := IsEtagMatch(VersionTag(have.value), VersionTag(snapshot.version));
        if matches { return NotModified; }
      }
      return Body(snapshot);
    }
  }

  const MAX_CALL_DEPTH_CHAINS: nat := 10000
  const MAX_ARTIFACT_CACHE_ENTRIES: nat := 200
  const MAX_LOG_ENTRIES: nat := 1000

  class RuntimeServer {
    const projectId: string
    var currentSnapshot: Option<Snapshot>
    var projectSnapshots: map<string, Snapshot>
    var callDepthChains: map<string, nat>
    var cachedIds: seq<string>
    var artifactCache: map<string, string>
    var logEntries: seq<string>
    ghost var logged: seq<string>

    /** The own project's snapshot is in both places; caches keep their bounds; the log
        holds the last entries. */
    ghost predicate Valid()
      reads this
    {
      currentSnapshot == Known(projectId)
      && |callDepthChains| <= MAX_CALL_DEPTH_CHAINS
      && (forall i, j :: 0 <= i < j < |cachedIds| ==> cachedIds[i] != cachedIds[j])
      && (forall id :: id in cachedIds <==> id in artifactCache) && |cachedIds| <= MAX_ARTIFACT_CACHE_ENTRIES
      && logEntries == Last(logged, MAX_LOG_ENTRIES)
    }

    function Known(pId: string): Option<Snapshot>
      reads this
    {
      if pId in projectSnapshots then Some(projectSnapshots[pId]) else None
    }

    constructor (projectId: string)
      ensures Valid() && this.projectId == projectId && logged == [] && projectSnapshots == map[]
    {
      this.projectId := projectId;
      currentSnapshot, projectSnapshots, callDepthChains := None, map[], map[];
      cachedIds, artifactCache, logEntries, logged := [], map[], [], [];
    }

    /** The answer to a snapshot request for `pId` arrives. */
    method SnapshotArrives(pId: string, r: Response)
      requires Valid()
      modifies this
      ensures Valid() && Known(pId) == Accepted(old(Known(pId)), r)
      ensures forall p :: p != pId ==> Known(p) == old(Known(p))
      ensures logEntries == old(logEntries) && artifactCache == old(artifactCache) && callDepthChains == old(callDepthChains)
    {
      var existing := if pId == projectId then currentSnapshot else Known(pId);
      if r.Body? {
        if existing.None? || r.snapshot.version > existing.value.version {
          projectSnapshots := projectSnapshots[pId := r.snapshot];
          if pId == projectId { currentSnapshot := Some(r.snapshot); }
        }
      }
    }

    /** The hop's depth comes from its chain, and from the header only for an unknown chain. */
    method TrackCallDepth(requestId: string, headerDepth: nat) returns (depth: nat)
      requires Valid()
      modifies this`callDepthChains
      ensures Valid() && depth == (if requestId in old(callDepthChains) then old(callDepthChains)[requestId] else headerDepth)
      ensures callDepthChains == (if |old(callDepthChains)| < 10000 then old(callDepthChains) else map[])[requestId := depth + 1]
    {
      depth := if requestId in callDepthChains then callDepthChains[requestId] else headerDepth;
      if |callDepthChains| >= MAX_CALL_DEPTH_CHAINS {
        callDepthChains := map[];
      }
      Grows(callDepthChains, requestId, depth + 1);
      callDepthChains := callDepthChains[requestId := depth + 1];
    }

    method EvictOldest()
      requires Valid() && cachedIds != []
      modifies this`cachedIds, this`artifactCache
      ensures Valid() && cachedIds == old(cachedIds)[1..] && artifactCache == old(artifactCache) - {old(cachedIds)[0]}
    {
      var oldest := cachedIds[0];
      assert forall k :: k in cachedIds <==> k == oldest || k in cachedIds[1..];
      artifactCache := artifactCache - {oldest};
      cachedIds := cachedIds[1..];
    }

    /** At capacity the longest-held code goes, even if `id` itself is cached. */
    method CacheArtifactCode(id: string, code: string)
      requires Valid()
      modifies this`cachedIds, this`artifactCache
      ensures Valid()
      ensures var kept := if |old(cachedIds)| < 200 then old(cachedIds) else old(cachedIds)[1..];
        cachedIds == if id in kept then kept else kept + [id]
      ensures artifactCache == (if |old(cachedIds)| < 200 then old(artifactCache) else old(artifactCache) - {old(cachedIds)[0]})[id := code]
    {
      if |cachedIds| >= MAX_ARTIFACT_CACHE_ENTRIES {
        EvictOldest();
      }
      if id !in artifactCache { cachedIds := cachedIds + [id]; }
      artifactCache := artifactCache[id := code];
    }

    method RecordLogEntry(entry: string)
      requires Valid()
      modifies this`logEntries, this`logged
      ensures Valid() && logged == old(logged) + [entry]
      ensures logEntries == if |logged| <= 1000 then logged else logged[|logged| - 1000..]
    {
      LastOneMore(logged, entry, MAX_LOG_ENTRIES);
      logged := logged + [entry];
      logEntries := logEntries + [entry];
      if |logEntries| > MAX_LOG_ENTRIES {
        logEntries := logEntries[1..];
      }
    }
  }

  function Last<T>(s: seq<T>, n: nat): seq<T> { if |s| <= n then s else s[|s| - n..] }

  /** Appending to the last `n` and dropping the first beyond `n` gives the last `n`. */
  lemma LastOneMore<T>(s: seq<T>, x: T, n: nat)
    requires n > 0
    ensures Last(s + [x], n) == var t := Last(s, n) + [x]; if |t| > n then t[1..] else t
  {
  }

  lemma Grows<V>(m: map<string, V>, k: string, v: V)
    ensures |m[k := v]| <= |m| + 1
  {
    assert m[k := v].Keys == m.Keys + {k};
    assert |m[k := v].Keys| == |m[k := v]| && |m.Keys| == |m|;
  }
}

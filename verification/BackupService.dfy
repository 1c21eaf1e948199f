/** Export and import of `DefaultStateBackupService` (apps/api/state-backup-service.ts). */
module BackupService {
  import opened Options
  import opened Ulid
  import opened Deployment
  import opened Persistence
  import opened Stores
  import opened StoreKeys
  import opened KvPaths
  import opened BackupArchive
  import opened StateBackup

  lemma HexHasNoSlash(s: string)
    requires IsSha256Hex(s)
    ensures '/' !in s
  {
  }

  ghost predicate SameUnder(a: map<string, Bytes>, b: map<string, Bytes>, t: Scope) {
    forall k :: ObjectPrefix(t.orgId, t.projectId) <= k ==> Lookup(a, k) == Lookup(b, k)
  }

  class StateBackupService {
    const deployments: DeploymentService
    const kv: KvStore
    const store: ObjectStore
    const codec: Codec

    constructor (deployments: DeploymentService, kv: KvStore, store: ObjectStore, codec: Codec)
      ensures this.deployments == deployments && this.kv == kv && this.store == store && this.codec == codec
    {
      this.deployments, this.kv, this.store, this.codec := deployments, kv, store, codec;
    }

    function View(): World
      reads deployments, kv, store
    {
      World(deployments.View(), kv.entries, store.objects)
    }

    method ExportRevisions(revMap: map<string, Revision>) returns (revisions: seq<BackupRevision>)
      requires KeyedById(revMap)
      ensures RevisionsListed(revMap, revisions)
    {
      var ids := KeysOf(revMap);
      revisions := seq(|ids|, i requires 0 <= i < |ids| => BackupOf(revMap[ids[i]]));
      forall k | k in revMap ensures HasRevision(revisions, k) {
        var i :| 0 <= i < |ids| && ids[i] == k;
        assert revisions[i].id == k;
      }
    }

    method ExportFunctions(project: string) returns (functions: seq<BackupFunction>)
      requires AllKeyedById(deployments.revisions)
      ensures FunctionsListed(deployments.View().durable, project, functions)
    {
      functions := [];
      var fnMap := FunctionMap(deployments.revisions, project);
      var names := KeysOf(fnMap);
      for i := 0 to |names|
        invariant forall j :: 0 <= j < |functions| ==> FunctionListed(deployments.View().durable, project, functions[j])
        invariant |functions| == i && forall j :: 0 <= j < i ==> functions[j].name == names[j]
      {
        var active := PointerOf(deployments.activePointers, project, names[i]);
        var revisions := ExportRevisions(fnMap[names[i]]);
        functions := functions + [BackupFunction(names[i], active, revisions)];
      }
      forall name | name in fnMap ensures HasFunction(functions, name) {
        var i :| 0 <= i < |names| && names[i] == name;
        assert functions[i].name == name;
      }
    }

    /** Adds an entry for each key of a page that has a namespace and a segment. */
    method ExportPage(page: seq<Key>, entries: seq<KvEntry>, ghost from: seq<Key>, ghost done: set<Key>)
      returns (more: seq<KvEntry>, ghost source: seq<Key>)
      requires IsSource(kv.entries, entries, from, done) && NoneTwice(page) && forall k :: k in page ==> k in kv.entries && k !in done
      ensures IsSource(kv.entries, more, source, done + set k | k in page)
    {
      hide IsSource, EntryFrom;
      more, source := entries, from;
      ghost var shown := done;
      for i := 0 to |page|
        invariant IsSource(kv.entries, more, source, shown) && shown == done + set k | k in page[..i]
      {
        var key := page[i];
        assert key in page && page[..i + 1] == page[..i] + [key];
        EntryAdded(kv.entries, more, source, shown, key);
        if |key| >= 4 {
          more, source := more + [EntryFrom(kv.entries, key)], source + [key];
        }
        shown := shown + {key};
      }
      assert page[..|page|] == page;
    }

    /** Walks the pages of the listing. */
    method ExportKv(t: Scope) returns (entries: seq<KvEntry>)
      ensures Archives(kv.entries, t, entries)
    {
      hide IsSource, ShownSoFar, IsPage, Listed, PathOf, NoneTwice;
      entries := [];
      var cursor, first := None, true;
      ghost var from: seq<Key> := [];
      ghost var done: set<Key> := {};
      ghost var keys := KvSelected(kv.entries, t);
      assert kv.Matching([t.orgId, t.projectId]) == keys;
      Starts(keys, PathOf(), kv.entries);
      while first || cursor.Some?
        invariant IsSource(kv.entries, entries, from, done) && ShownSoFar(keys, PathOf(), done, cursor, first)
        decreases if first || cursor.Some? then 1 + |Remaining(keys, PathOf(), cursor)| else 0
      {
        var page, next := kv.List([t.orgId, t.projectId], cursor);
        PageShown(keys, PathOf(), done, cursor, first, page, next);
        PageIsDistinct(page, keys, PathOf(), cursor, next);
        entries, from := ExportPage(page, entries, from, done);
        done, cursor, first := done + (set k | k in page), next, false;
      }
      assert done == keys by { AllShown(keys, PathOf(), done); }
    }

    /** Reads every object of the project; large ones are copied under their hash. */
    method ExportObjects(t: Scope) returns (records: seq<ObjectRecord>)
      requires Lawful(codec)
      modifies store
      ensures ObjectsListed(codec, old(store.objects), t, records, ObjectsUnder(old(store.objects), t))
      ensures PayloadsStored(codec, old(store.objects), store.objects, records)
    {
      hide ObjectsListed, ShownSoFar, IsPage, PayloadsStored, Lawful, InStore, SameUnder;
      records := [];
      var cursor, first := None, true;
      ghost var before := store.objects;
      ghost var done: set<string> := {};
      ghost var keys := ObjectsUnder(before, t);
      ghost var path := (k: string) => k;
      ObjectsStart(codec, before, t);
      while first || cursor.Some?
        invariant ObjectsListed(codec, before, t, records, done) && ShownSoFar(keys, path, done, cursor, first)
        invariant PayloadsStored(codec, before, store.objects, records) && SameUnder(before, store.objects, t)
        decreases if first || cursor.Some? then 1 + |Remaining(keys, path, cursor)| else 0
      {
        assert store.Under(ObjectPrefix(t.orgId, t.projectId)) == keys by { UnderIsStable(before, store.objects, t); }
        var page, next := store.List(ObjectPrefix(t.orgId, t.projectId), cursor);
        PageShown(keys, path, done, cursor, first, page, next);
        assert NoneTwice(page) by { PageIsDistinct(page, keys, path, cursor, next); }
        ghost var shown := done;
        for i := 0 to |page|
          invariant ObjectsListed(codec, before, t, records, shown) && shown == done + set k | k in page[..i]
          invariant PayloadsStored(codec, before, store.objects, records) && SameUnder(before, store.objects, t)
        {
          assert page[i] in page && page[..i + 1] == page[..i] + [page[i]];
          records := ExportObject(t, records, page[i], before, shown);
          shown := shown + {page[i]};
        }
        assert page[..|page|] == page;
        done, cursor, first := shown, next, false;
      }
      assert done == keys by { AllShown(keys, path, done); }
    }

    method ExportObject(t: Scope, records: seq<ObjectRecord>, full: string, ghost before: map<string, Bytes>, ghost shown: set<string>)
      returns (more: seq<ObjectRecord>)
      requires Lawful(codec) && full in before && full !in shown && ObjectPrefix(t.orgId, t.projectId) <= full
      requires ObjectsListed(codec, before, t, records, shown)
      requires PayloadsStored(codec, before, store.objects, records) && SameUnder(before, store.objects, t)
      modifies store
      ensures ObjectsListed(codec, before, t, more, shown + {full})
      ensures PayloadsStored(codec, before, store.objects, more) && SameUnder(before, store.objects, t)
    {
      hide ObjectsListed, PayloadsStored;
      var rel := Relative(t, full);
      var slash := IndexOf(rel, '/');
      if slash.None? {
        ObjectPassed(codec, before, t, records, shown, full);
        return records;
      }
      assert Lookup(before, full) == Lookup(store.objects, full);
      var got := store.Get(full);
      var bytes := got.value;
      var record := ObjectRecordOf(codec, rel[..slash.value], rel[slash.value + 1..], bytes);
      ObjectAdded(codec, before, t, records, shown, full, slash.value);
      if |bytes| < MAX_INLINE_OBJECT_BYTES {
        InlineAdded(codec, before, store.objects, records, record);
      } else {
        LargeAdded(codec, before, store.objects, records, record, bytes);
        HexHasNoSlash(record.sha256);
        CasIsNobodys(t.orgId, t.projectId, record.sha256);
        store.Put(CasKey(record.sha256), bytes);
      }
      return records + [record];
    }

    /** `backupId` is the fresh identifier the archive gets. */
    method ExportProject(t: Scope, backupStorageKey: Option<string>, backupId: string) returns (r: Result<Archive, BackupError>)
      requires Lawful(codec) && AllKeyedById(deployments.revisions)
      modifies store
      ensures r.Ok? ==> ValidIdentifier(t.orgId) && ValidIdentifier(t.projectId) && ValidArchive(r.value)
      ensures r.Ok? && backupStorageKey.Some? ==> StorageKeyAllowed(backupStorageKey.value)
      ensures r.Ok? ==> r.value.backupId == backupId && IsAssembled(codec, old(View()), t, r.value)
      ensures r.Ok? ==> ExportWrote(codec, old(store.objects), store.objects, r.value, ArchiveKey(backupStorageKey, backupId))
      ensures r.Err? ==> r.error == Invalid && ExportRefused(codec, old(View()), t, backupStorageKey, backupId)
      ensures r.Err? ==> forall k :: !("artifacts/" <= k) ==> Lookup(store.objects, k) == Lookup(old(store.objects), k)
    {
      hide FunctionsListed, Archives, ObjectsListed, ValidIdentifier, ValidArchive, PayloadsStored, AllKeyedById, Lawful, StorageKeyAllowed;
      if !ValidIdentifier(t.orgId) || !ValidIdentifier(t.projectId) { return Err(Invalid); }
      var functions := ExportFunctions(t.projectId);
      var entries := ExportKv(t);
      ghost var before := store.objects;
      var records := ExportObjects(t);
      OnlyArtifacts(codec, before, store.objects, records);
      var archive := Archive(backupId, t.orgId, t.projectId, t.projectId, functions, entries, records);
      assert IsAssembled(codec, old(View()), t, archive);
      if !ValidArchive(archive) { return Err(Invalid); }
      if backupStorageKey.Some? && !StorageKeyAllowed(backupStorageKey.value) { return Err(Invalid); }
      ghost var stored := store.objects;
      store.Put(ArchiveKey(backupStorageKey, backupId), codec.serialize(archive));
      assert PayloadsStored(codec, before, stored, archive.objects);
      return Ok(archive);
    }

    // -------------------------------------------------------------- import

    method CheckConflicts(project: string, functions: seq<BackupFunction>) returns (ok: bool)
      ensures ok == NoConflicts(deployments.View().durable, project, Ops(functions))
    {
      ghost var d := deployments.View().durable;
      for i := 0 to |functions|
        invariant NoConflicts(d, project, Ops(functions[..i]))
      {
        var f := functions[i];
        for j := 0 to |f.revisions|
          invariant NoConflicts(d, project, Ops(functions[..i]) + OpsOf(f)[..j])
        {
          var existing := deployments.GetRevision(project, f.name, f.revisions[j].id);
          OpsExtend(functions, i, j);
          if existing.Some? && existing.value.artifactId != f.revisions[j].artifactId {
            assert ConflictsWith(d, project, Ops(functions)[|Ops(functions[..i])| + j]);
            return false;
          }
        }
        OpsDone(functions, i);
      }
      assert functions[..|functions|] == functions;
      return true;
    }

    method CheckKvGate(t: Scope, es: seq<KvEntry>) returns (r: Option<BackupError>)
      ensures r == Gate(kv.entries, t, es, |es|)
    {
      var seen: set<string> := {};
      for i := 0 to |es|
        invariant Gate(kv.entries, t, es, i).None?
        invariant seen == set j | 0 <= j < i :: Join(ScopedKey(t, es[j]))
      {
        var key := ScopedKey(t, es[i]);
        if Join(key) in seen {
          GateStops(kv.entries, t, es, i);
          return Some(Clash);
        }
        seen := seen + {Join(key)};
        var existing := kv.Get(key);
        if existing.None? {
          GateStops(kv.entries, t, es, i);
          return Some(Invalid);
        }
        if existing.value != Null {
          GateStops(kv.entries, t, es, i);
          return Some(Clash);
        }
      }
      return None;
    }

    method PrecheckImport(t: Scope, a: Archive, overwriteKv: bool) returns (r: Option<BackupError>)
      ensures r == Precheck(View(), t, a, overwriteKv)
    {
      hide ValidIdentifier, ValidArchive, NoConflicts, Gate, HasPathTraversal;
      if !ValidIdentifier(t.orgId) || !ValidIdentifier(t.projectId) { return Some(Invalid); }
      if !ValidArchive(a) { return Some(Invalid); }
      if !ValidIdentifier(a.orgId) || !ValidIdentifier(a.projectId) { return Some(Invalid); }
      for i := 0 to |a.kv|
        invariant forall k :: 0 <= k < i ==> SafeEntry(a.kv[k])
      {
        if HasPathTraversal(a.kv[i].namespace) { return Some(Invalid); }
        for j := 0 to |a.kv[i].key|
          invariant forall k :: 0 <= k < j ==> !HasPathTraversal(a.kv[i].key[k])
        {
          if HasPathTraversal(a.kv[i].key[j]) { return Some(Invalid); }
        }
      }
      for i := 0 to |a.objects|
        invariant forall k :: 0 <= k < i ==> SafeObject(a.objects[k])
      {
        var o := a.objects[i];
        if HasPathTraversal(o.store) || '/' in o.store || '\\' in o.store { return Some(Invalid); }
        if HasPathTraversal(o.key) || "/" <= o.key || "\\" <= o.key { return Some(Invalid); }
      }
      for i := 0 to |a.objects|
        invariant forall k :: 0 <= k < i ==> PayloadPresent(store.objects, a.objects[k])
      {
        if a.objects[i].dataBase64.None? {
          var payload := store.Get(CasKey(a.objects[i].sha256));
          if payload.None? { return Some(Invalid); }
        }
      }
      var clean := CheckConflicts(t.projectId, a.functions);
      if !clean { return Some(Clash); }
      if !overwriteKv {
        r := CheckKvGate(t, a.kv);
        return;
      }
      return None;
    }

    method RestoreFunctions(project: string, functions: seq<BackupFunction>) returns (ok: bool, restored: nat)
      modifies deployments
      ensures RestoreAll(old(deployments.View()), project, Ops(functions)) == if ok then Ok(deployments.View()) else Err(deployments.View())
      ensures ok ==> restored == |Ops(functions)|
    {
      ghost var s := deployments.View();
      restored := 0;
      for i := 0 to |functions|
        invariant RestoreAll(s, project, Ops(functions[..i])) == Ok(deployments.View()) && restored == |Ops(functions[..i])|
      {
        var f := functions[i];
        assert Ops(functions[..i]) + OpsOf(f)[..0] == Ops(functions[..i]);
        for j := 0 to |f.revisions|
          invariant RestoreAll(s, project, Ops(functions[..i]) + OpsOf(f)[..j]) == Ok(deployments.View())
          invariant restored == |Ops(functions[..i])| + j
        {
          ghost var done := Ops(functions[..i]) + OpsOf(f)[..j];
          OpsExtend(functions, i, j);
          assert (done + [OpOf(f, j)])[..|done|] == done;
          var rev := f.revisions[j];
          var record := Revision(rev.id, project, f.name, rev.artifactId, rev.integrity, rev.state, rev.createdAt, rev.manifest);
          var failed := deployments.RestoreRevision(project, f.name, record, f.activeRevisionId == Some(rev.id));
          if failed.Some? {
            ThrownStays(s, project, done + [OpOf(f, j)], Ops(functions));
            return false, restored;
          }
          restored := restored + 1;
        }
        OpsDone(functions, i);
      }
      assert functions[..|functions|] == functions;
      return true, restored;
    }

    method RestoreKv(t: Scope, a: Archive) returns (restored: nat)
      modifies kv
      ensures restored == GoodKv(t, a)
      ensures kv.entries == Written(old(kv.entries), KvPairs(t, a.kv[..restored]))
    {
      restored := 0;
      while restored < |a.kv|
        invariant restored <= |a.kv| && forall i :: 0 <= i < restored ==> KeyFits(ScopedKey(t, a.kv[i]))
        invariant kv.entries == Written(old(kv.entries), KvPairs(t, a.kv[..restored]))
      {
        ghost var pairs := KvPairs(t, a.kv[..restored + 1]);
        assert pairs[..restored] == KvPairs(t, a.kv[..restored]);
        var ok := kv.Set(ScopedKey(t, a.kv[restored]), a.kv[restored].value);
        if !ok { return; }
        restored := restored + 1;
      }
    }

    method RestoreObjects(t: Scope, a: Archive) returns (restored: nat)
      requires ValidArchive(a)
      modifies store
      ensures restored == GoodObjects(codec, old(store.objects), a)
      ensures store.objects == Written(old(store.objects), ObjectPairs(codec, old(store.objects), t, a.objects[..restored]))
    {
      hide IsSha256Hex, IsIntegrity, IsBase64, ValidFunction, ValidKvEntry, ObjectKey, CasKey;
      ghost var before := store.objects;
      restored := 0;
      while restored < |a.objects|
        invariant restored <= |a.objects| && forall i :: 0 <= i < restored ==> PayloadMatches(codec, before, a.objects[i])
        invariant store.objects == Written(before, ObjectPairs(codec, before, t, a.objects[..restored]))
      {
        var o := a.objects[restored];
        ghost var pairs := ObjectPairs(codec, before, t, a.objects[..restored + 1]);
        assert pairs[..restored] == ObjectPairs(codec, before, t, a.objects[..restored]);
        CasSurvives(codec, before, t, a.objects[..restored], o.sha256);
        var bytes;
        if o.dataBase64.Some? {
          var decoded := codec.decode(o.dataBase64.value);
          if decoded.None? { return; }
          bytes := decoded.value;
        } else {
          var stored := store.Get(CasKey(o.sha256));
          if stored.None? { return; }
          bytes := stored.value;
        }
        if codec.sha256(bytes) != o.sha256 { return; }
        store.Put(ScopedObject(t, o), bytes);
        restored := restored + 1;
      }
    }

    method ImportProject(t: Scope, a: Archive, overwriteKv: bool) returns (r: Result<ImportResult, BackupError>)
      modifies deployments, kv, store
      ensures var (w, error) := Imported(codec, old(View()), t, a, overwriteKv);
        View() == w && (if error.Some? then r == Err(error.value) else r == Ok(ImportResult(|Ops(a.functions)|, |a.kv|, |a.objects|)))
      ensures Precheck(old(View()), t, a, overwriteKv).Some? ==> r.Err? && View() == old(View())
    {
      var refused := PrecheckImport(t, a, overwriteKv);
      if refused.Some? { return Err(refused.value); }
      assert ValidArchive(a) by { PassedIsValid(View(), t, a, overwriteKv); }
      hide Precheck, ValidArchive;
      var ok, revisions := RestoreFunctions(t.projectId, a.functions);
      if !ok { return Err(Clash); }
      var keys := RestoreKv(t, a);
      if keys < |a.kv| { return Err(Invalid); }
      var objects := RestoreObjects(t, a);
      if objects < |a.objects| { return Err(Invalid); }
      return Ok(ImportResult(revisions, keys, objects));
    }
  }

  // ---------------------------------------------------------------- export contracts

  function ArchiveKey(backupStorageKey: Option<string>, backupId: string): string {
    backupStorageKey.GetOr("backups/" + backupId + ".json")
  }

  /** Large payloads went under their hashes, then the archive under its key. */
  ghost predicate ExportWrote(c: Codec, before: map<string, Bytes>, after: map<string, Bytes>, a: Archive, key: string) {
    exists mid :: PayloadsStored(c, before, mid, a.objects) && after == mid[key := c.serialize(a)]
  }

  ghost predicate ExportRefused(c: Codec, w: World, t: Scope, backupStorageKey: Option<string>, backupId: string) {
    !ValidIdentifier(t.orgId) || !ValidIdentifier(t.projectId) || (backupStorageKey.Some? && !StorageKeyAllowed(backupStorageKey.value))
    || exists a: Archive :: a.backupId == backupId && IsAssembled(c, w, t, a) && !ValidArchive(a)
  }

  lemma OnlyArtifacts(c: Codec, before: map<string, Bytes>, after: map<string, Bytes>, os: seq<ObjectRecord>)
    requires PayloadsStored(c, before, after, os)
    ensures forall k :: !("artifacts/" <= k) ==> Lookup(after, k) == Lookup(before, k)
  {
    forall k | !("artifacts/" <= k) ensures !IsCasOf(os, k) {
    }
  }

  // ---------------------------------------------------------------- steps of the import

  lemma {:induction false} OpsOfPrefix(fs: seq<BackupFunction>, i: nat)
    requires i <= |fs|
    ensures Ops(fs[..i]) <= Ops(fs)
    decreases |fs|
  {
    if i < |fs| {
      assert fs[..|fs| - 1][..i] == fs[..i];
      OpsOfPrefix(fs[..|fs| - 1], i);
    } else {
      assert fs[..i] == fs;
    }
  }

  lemma OpsDone(fs: seq<BackupFunction>, i: nat)
    requires i < |fs|
    ensures Ops(fs[..i + 1]) == Ops(fs[..i]) + OpsOf(fs[i]) == Ops(fs[..i]) + OpsOf(fs[i])[..|fs[i].revisions|]
  {
    assert fs[..i + 1][..i] == fs[..i];
    assert OpsOf(fs[i])[..|fs[i].revisions|] == OpsOf(fs[i]);
  }

  lemma OpsExtend(fs: seq<BackupFunction>, i: nat, j: nat)
    requires i < |fs| && j < |fs[i].revisions|
    ensures var done := Ops(fs[..i]) + OpsOf(fs[i])[..j];
      Ops(fs[..i]) + OpsOf(fs[i])[..j + 1] == done + [OpOf(fs[i], j)] && done + [OpOf(fs[i], j)] <= Ops(fs)
    ensures |Ops(fs[..i])| + j < |Ops(fs)| && Ops(fs)[|Ops(fs[..i])| + j] == OpOf(fs[i], j)
  {
    OpsOfPrefix(fs, i + 1);
    OpsDone(fs, i);
    var done := Ops(fs[..i]) + OpsOf(fs[i])[..j];
    assert OpsOf(fs[i])[..j + 1] == OpsOf(fs[i])[..j] + [OpOf(fs[i], j)];
    assert done + [OpOf(fs[i], j)] == Ops(fs[..i]) + OpsOf(fs[i])[..j + 1];
    assert Ops(fs[..i]) + OpsOf(fs[i])[..j + 1] <= Ops(fs[..i]) + OpsOf(fs[i]);
  }

  /** Once a restore has thrown, the remaining ones do not run. */
  lemma {:induction false} ThrownStays(s: Service, project: string, some: seq<RestoreOp>, all: seq<RestoreOp>)
    requires some <= all && RestoreAll(s, project, some).Err?
    ensures RestoreAll(s, project, all) == RestoreAll(s, project, some)
    decreases |all|
  {
    if |some| < |all| {
      ThrownStays(s, project, some, all[..|all| - 1]);
    } else {
      assert some == all;
    }
  }

  lemma {:induction false} GateStops(kv: map<Key, Json>, t: Scope, es: seq<KvEntry>, i: nat)
    requires i < |es| && Gate(kv, t, es, i).None? && GateEntry(kv, t, es, i).Some?
    ensures Gate(kv, t, es, |es|) == GateEntry(kv, t, es, i)
  {
    GateStaysStopped(kv, t, es, i + 1, |es|);
  }

  lemma {:induction false} GateStaysStopped(kv: map<Key, Json>, t: Scope, es: seq<KvEntry>, i: nat, n: nat)
    requires i <= n <= |es| && Gate(kv, t, es, i).Some?
    ensures Gate(kv, t, es, n) == Gate(kv, t, es, i)
  {
    hide GateEntry;
    if i < n { GateStaysStopped(kv, t, es, i, n - 1); }
  }

  /** Restored objects never replace a content-addressed payload. */
  lemma CasSurvives(c: Codec, objects: map<string, Bytes>, t: Scope, os: seq<ObjectRecord>, sha256: string)
    requires IsSha256Hex(sha256)
    ensures Lookup(Written(objects, ObjectPairs(c, objects, t, os)), CasKey(sha256)) == Lookup(objects, CasKey(sha256))
  {
    HexHasNoSlash(sha256);
    CasIsNobodys(t.orgId, t.projectId, sha256);
    var pairs := ObjectPairs(c, objects, t, os);
    forall i | 0 <= i < |pairs| ensures pairs[i].0 != CasKey(sha256) {
      KeyUnderPrefix(t.orgId, t.projectId, os[i].store, os[i].key);
    }
    UnwrittenStays(objects, pairs, CasKey(sha256));
  }

  lemma PassedIsValid(w: World, t: Scope, a: Archive, overwriteKv: bool)
    requires Precheck(w, t, a, overwriteKv).None?
    ensures ValidArchive(a)
  {
  }

  lemma Starts(keys: set<Key>, path: Key -> string, entries: map<Key, Json>)
    ensures ShownSoFar(keys, path, {}, None, true) && IsSource(entries, [], [], {})
  {
  }

  lemma ObjectsStart(c: Codec, objects: map<string, Bytes>, t: Scope)
    ensures ShownSoFar(ObjectsUnder(objects, t), (k: string) => k, {}, None, true) && ObjectsListed(c, objects, t, [], {})
    ensures PayloadsStored(c, objects, objects, []) && SameUnder(objects, objects, t)
    ensures TellsApart((k: string) => k)
  {
  }

  lemma PageIsDistinct<K(!new)>(page: seq<K>, keys: set<K>, path: K -> string, cursor: Option<string>, next: Option<string>)
    requires IsPage(page, keys, path, cursor, next)
    ensures NoneTwice(page)
  {
  }

  lemma AllShown<K(!new)>(keys: set<K>, path: K -> string, done: set<K>)
    requires ShownSoFar(keys, path, done, None, false)
    ensures done == keys
  {
  }

  lemma UnderIsStable(before: map<string, Bytes>, now: map<string, Bytes>, t: Scope)
    requires SameUnder(before, now, t)
    ensures ObjectsUnder(now, t) == ObjectsUnder(before, t)
  {
    forall k | ObjectPrefix(t.orgId, t.projectId) <= k ensures k in now <==> k in before {
      assert Lookup(before, k) == Lookup(now, k);
    }
  }
}

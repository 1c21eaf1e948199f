/**
  What exports and imports promise together: an archive restores the same project
  elsewhere, a passed pre-check is (nearly) enough, and an import stays in its project.
*/
module BackupRoundTrip {
  import opened Options
  import opened Ulid
  import opened Deployment
  import opened Stores
  import opened StoreKeys
  import opened KvPaths
  import opened BackupArchive
  import opened StateBackup
  import opened BackupService

  // ---------------------------------------------------------------- restoring revisions

  predicate SameSlot(a: RestoreOp, b: RestoreOp) { a.fn == b.fn && a.rev.id == b.rev.id }

  /** The first of the operations that restores this revision. */
  function FirstOp(ops: seq<RestoreOp>, fn: string, id: string): (r: Option<RestoreOp>)
    ensures r.Some? ==> r.value in ops && r.value.fn == fn && r.value.rev.id == id
    ensures r.None? ==> forall i :: 0 <= i < |ops| ==> ops[i].fn != fn || ops[i].rev.id != id
    decreases |ops|
  {
    if ops == [] then None
    else
      var earlier := FirstOp(ops[..|ops| - 1], fn, id);
      var last := ops[|ops| - 1];
      if earlier.Some? then earlier else if last.fn == fn && last.rev.id == id then Some(last) else None
  }

  /** The revision the last activating operation on this function activates. */
  function LastActive(ops: seq<RestoreOp>, fn: string): (r: Option<string>)
    ensures r.Some? ==> exists i :: 0 <= i < |ops| && ops[i].fn == fn && ops[i].active && ops[i].rev.id == r.value
    ensures r.None? ==> forall i :: 0 <= i < |ops| ==> ops[i].fn != fn || !ops[i].active
    decreases |ops|
  {
    if ops == [] then None
    else
      var last := ops[|ops| - 1];
      var earlier := LastActive(ops[..|ops| - 1], fn);
      assert earlier.Some? ==> exists i :: 0 <= i < |ops| - 1 && ops[..|ops| - 1][i] == ops[i] && ops[i].fn == fn && ops[i].active && ops[i].rev.id == earlier.value;
      if last.fn == fn && last.active then Some(last.rev.id) else earlier
  }

  /** The state an interrupted or finished restore has reached. */
  function Reached(r: Result<Service, Service>): Service { match r case Ok(s) => s case Err(s) => s }

  ghost predicate OutsideUntouched(d: Durable, d': Durable, project: string) {
    d'.routes == d.routes && d'.metadata == d.metadata
    && forall p: string, f: string :: p != project ==>
      PointerOf(d'.pointers, p, f) == PointerOf(d.pointers, p, f)
      && forall k: string :: RecordOf(d'.revisions, p, f, k) == RecordOf(d.revisions, p, f, k)
  }

  /** Finished or interrupted, restoring revisions changes one project only. */
  lemma {:induction false} RestoreStaysInProject(s: Service, project: string, ops: seq<RestoreOp>)
    ensures OutsideUntouched(s.durable, Reached(RestoreAll(s, project, ops)).durable, project)
    decreases |ops|
  {
    if ops != [] { RestoreStaysInProject(s, project, ops[..|ops| - 1]); }
  }

  /** After a restore: records that were there stay, others come from the first
      operation naming them, and the last activation holds the pointer. */
  lemma {:induction false} RestoredState(s: Service, project: string, ops: seq<RestoreOp>, f: string, k: string)
    requires RestoreAll(s, project, ops).Ok?
    ensures var d, d' := s.durable, RestoreAll(s, project, ops).value.durable;
      var first := FirstOp(ops, f, k);
      RecordOf(d'.revisions, project, f, k) ==
        (if RecordOf(d.revisions, project, f, k).Some? || first.None? then RecordOf(d.revisions, project, f, k) else Some(RecordFor(project, first.value)))
      && PointerOf(d'.pointers, project, f) == if LastActive(ops, f).Some? then LastActive(ops, f) else PointerOf(d.pointers, project, f)
    decreases |ops|
  {
    if ops != [] {
      RestoredState(s, project, ops[..|ops| - 1], f, k);
      var op := ops[|ops| - 1];
      RestoredState(s, project, ops[..|ops| - 1], op.fn, op.rev.id);
    }
  }

  /** Operations on one revision carry one artifact. */
  predicate Agree(ops: seq<RestoreOp>) {
    forall i, j :: 0 <= i < j < |ops| && SameSlot(ops[i], ops[j]) ==> ops[i].rev.artifactId == ops[j].rev.artifactId
  }

  predicate AgreesWith(ops: seq<RestoreOp>, op: RestoreOp) {
    forall i :: 0 <= i < |ops| && SameSlot(ops[i], op) ==> ops[i].rev.artifactId == op.rev.artifactId
  }

  lemma OneMore(d: Durable, project: string, before: seq<RestoreOp>, op: RestoreOp)
    ensures Agree(before + [op]) <==> Agree(before) && AgreesWith(before, op)
    ensures NoConflicts(d, project, before + [op]) <==> NoConflicts(d, project, before) && !ConflictsWith(d, project, op)
  {
    hide ConflictsWith;
    var ops := before + [op];
    assert ops[|before|] == op && forall i :: 0 <= i < |before| ==> ops[i] == before[i];
  }

  /** Restoring throws nowhere exactly when the revisions agree with the target and with each other. */
  lemma {:induction false} RestoreSucceedsIff(s: Service, project: string, ops: seq<RestoreOp>)
    ensures RestoreAll(s, project, ops).Ok? <==> NoConflicts(s.durable, project, ops) && Agree(ops)
    decreases |ops|
  {
    hide NoConflicts, Agree, AgreesWith, ConflictsWith, FirstOp, LastActive;
    if ops == [] {
      NothingDisagrees(s.durable, project);
    } else {
      var before, op := ops[..|ops| - 1], ops[|ops| - 1];
      assert before + [op] == ops;
      RestoreSucceedsIff(s, project, before);
      OneMore(s.durable, project, before, op);
      if RestoreAll(s, project, before).Ok? { LastOpFitsIff(s, project, before, op); }
    }
  }

  lemma NothingDisagrees(d: Durable, project: string)
    ensures NoConflicts(d, project, []) && Agree([])
  {
  }

  lemma LastOpFitsIff(s: Service, project: string, before: seq<RestoreOp>, op: RestoreOp)
    requires NoConflicts(s.durable, project, before) && Agree(before) && RestoreAll(s, project, before).Ok?
    ensures ConflictsWith(RestoreAll(s, project, before).value.durable, project, op)
      <==> ConflictsWith(s.durable, project, op) || !AgreesWith(before, op)
  {
    hide RestoreAll, LastActive;
    RestoredState(s, project, before, op.fn, op.rev.id);
    var there := RecordOf(s.durable.revisions, project, op.fn, op.rev.id);
    var first := FirstOp(before, op.fn, op.rev.id);
    if there.Some? {
      forall i | 0 <= i < |before| && SameSlot(before[i], op) ensures before[i].rev.artifactId == there.value.artifactId {
        assert !ConflictsWith(s.durable, project, before[i]);
      }
    } else if first.Some? {
      var m :| 0 <= m < |before| && before[m] == first.value;
      forall i | 0 <= i < |before| && SameSlot(before[i], op) ensures before[i].rev.artifactId == first.value.rev.artifactId {
        assert SameSlot(before[i], before[m]) && SameSlot(before[m], before[i]) && (i == m || i < m || m < i);
      }
    }
  }

  // ---------------------------------------------------------------- pre-checks suffice

  predicate AllFit(t: Scope, a: Archive) { forall i :: 0 <= i < |a.kv| ==> KeyFits(ScopedKey(t, a.kv[i])) }

  predicate AllMatch(c: Codec, objects: map<string, Bytes>, a: Archive) {
    forall i :: 0 <= i < |a.objects| ==> PayloadMatches(c, objects, a.objects[i])
  }

  /** An archive that passes the pre-checks restores without throwing exactly when its
      revisions agree, its payloads match their hashes, and, if keys may be overwritten,
      they fit the store's limits, which only the gate without overwrite looks at. */
  lemma PassedImportSucceedsIff(c: Codec, w: World, t: Scope, a: Archive, overwriteKv: bool)
    requires Precheck(w, t, a, overwriteKv).None?
    ensures Imported(c, w, t, a, overwriteKv).1.None?
      <==> Agree(Ops(a.functions)) && AllMatch(c, w.objects, a) && (overwriteKv ==> AllFit(t, a))
  {
    RestoreSucceedsIff(w.service, t.projectId, Ops(a.functions));
    if !overwriteKv {
      forall i | 0 <= i < |a.kv| ensures KeyFits(ScopedKey(t, a.kv[i])) {
        assert GateEntry(w.kv, t, a.kv, i).None?;
      }
    }
  }

  predicate DistinctIds(f: BackupFunction) {
    forall i, j :: 0 <= i < j < |f.revisions| ==> f.revisions[i].id != f.revisions[j].id
  }

  predicate DistinctFunctions(fs: seq<BackupFunction>) {
    (forall i, j :: 0 <= i < j < |fs| ==> fs[i].name != fs[j].name) && forall i :: 0 <= i < |fs| ==> DistinctIds(fs[i])
  }

  lemma {:induction false} OpsFrom(fs: seq<BackupFunction>, n: nat)
    requires n < |Ops(fs)|
    ensures exists i, j :: 0 <= i < |fs| && 0 <= j < |fs[i].revisions| && Ops(fs)[n] == OpOf(fs[i], j)
    decreases |fs|
  {
    if n < |Ops(fs[..|fs| - 1])| {
      OpsFrom(fs[..|fs| - 1], n);
      var i, j :| 0 <= i < |fs| - 1 && 0 <= j < |fs[..|fs| - 1][i].revisions| && Ops(fs[..|fs| - 1])[n] == OpOf(fs[..|fs| - 1][i], j);
      assert fs[..|fs| - 1][i] == fs[i];
    } else {
      assert Ops(fs)[n] == OpOf(fs[|fs| - 1], n - |Ops(fs[..|fs| - 1])|);
    }
  }

  /** Distinct function names and distinct revision ids per function are enough to agree. */
  lemma {:induction false} DistinctAgree(fs: seq<BackupFunction>)
    requires DistinctFunctions(fs)
    ensures Agree(Ops(fs))
    decreases |fs|
  {
    if fs != [] {
      var before, f := fs[..|fs| - 1], fs[|fs| - 1];
      assert forall i :: 0 <= i < |before| ==> before[i] == fs[i];
      DistinctAgree(before);
      forall i | 0 <= i < |Ops(before)| ensures Ops(before)[i].fn != f.name {
        OpsFrom(before, i);
      }
      assert forall j :: 0 <= j < |OpsOf(f)| ==> OpsOf(f)[j] == OpOf(f, j);
      ApartAgree(Ops(before), OpsOf(f));
    }
  }

  lemma ApartAgree(a: seq<RestoreOp>, b: seq<RestoreOp>)
    requires Agree(a) && Agree(b) && forall i, j :: 0 <= i < |a| && 0 <= j < |b| ==> !SameSlot(a[i], b[j])
    ensures Agree(a + b)
  {
    var ops := a + b;
    assert forall j :: |a| <= j < |ops| ==> ops[j] == b[j - |a|];
    assert forall i, j :: 0 <= i < |a| && |a| <= j < |ops| ==> !SameSlot(ops[i], ops[j]);
  }

  // ---------------------------------------------------------------- frame

  /** Whatever an import does and wherever it throws, other projects' keys stay as they were. */
  lemma ImportStaysInProject(c: Codec, w: World, t: Scope, a: Archive, overwriteKv: bool)
    ensures var w' := Imported(c, w, t, a, overwriteKv).0;
      OutsideUntouched(w.service.durable, w'.service.durable, t.projectId)
      && (forall k: Key :: !([t.orgId, t.projectId] <= k) ==> Lookup(w'.kv, k) == Lookup(w.kv, k))
      && forall k :: !(ObjectPrefix(t.orgId, t.projectId) <= k) ==> Lookup(w'.objects, k) == Lookup(w.objects, k)
  {
    hide Precheck;
    RestoreStaysInProject(w.service, t.projectId, Ops(a.functions));
    var n, m := GoodKv(t, a), GoodObjects(c, w.objects, a);
    forall k: Key | !([t.orgId, t.projectId] <= k) ensures Lookup(Written(w.kv, KvPairs(t, a.kv[..n])), k) == Lookup(w.kv, k) {
      UnwrittenStays(w.kv, KvPairs(t, a.kv[..n]), k);
    }
    var pairs := ObjectPairs(c, w.objects, t, a.objects[..m]);
    forall k | !(ObjectPrefix(t.orgId, t.projectId) <= k) ensures Lookup(Written(w.objects, pairs), k) == Lookup(w.objects, k) {
      forall i | 0 <= i < |pairs| ensures pairs[i].0 != k {
        KeyUnderPrefix(t.orgId, t.projectId, a.objects[i].store, a.objects[i].key);
      }
      UnwrittenStays(w.objects, pairs, k);
    }
  }

  // ---------------------------------------------------------------- what an export accepts

  ghost predicate FunctionsArchivable(d: Durable, project: string) {
    forall f :: f in FunctionMap(d.revisions, project) ==> FunctionArchivable(d, project, f)
  }

  ghost predicate FunctionArchivable(d: Durable, project: string, f: string)
    requires f in FunctionMap(d.revisions, project)
  {
    var m, p := FunctionMap(d.revisions, project)[f], PointerOf(d.pointers, project, f);
    f != "" && (forall k :: k in m ==> ValidRevision(BackupOf(m[k]))) && (p.Some? ==> IsPrefixedUlid(p.value, "rev_") && p.value in m)
  }

  predicate NoEmptySegment(k: Key) { forall i :: 2 <= i < |k| ==> k[i] != "" }

  /** No object in a store is empty: an empty inline payload has an empty base64 text, which the schema refuses. */
  ghost predicate ObjectsArchivable(objects: map<string, Bytes>, t: Scope) {
    forall store, key :: '/' !in store && ObjectKey(t.orgId, t.projectId, store, key) in objects ==>
      store != "" && key != "" && objects[ObjectKey(t.orgId, t.projectId, store, key)] != []
  }

  ghost predicate Archivable(w: World, t: Scope) {
    FunctionsArchivable(w.service.durable, t.projectId)
    && (forall k :: k in KvSelected(w.kv, t) && |k| >= 4 ==> NoEmptySegment(k))
    && ObjectsArchivable(w.objects, t)
  }

  lemma FunctionValidIff(d: Durable, project: string, f: BackupFunction)
    requires FunctionListed(d, project, f)
    ensures ValidFunction(f) <==> FunctionArchivable(d, project, f.name)
  {
    hide ValidRevision, IsPrefixedUlid;
    var m := FunctionMap(d.revisions, project)[f.name];
    forall k | k in m ensures exists j :: 0 <= j < |f.revisions| && f.revisions[j].id == k && f.revisions[j] == BackupOf(m[k]) {
      assert HasRevision(f.revisions, k);
    }
  }

  lemma FunctionsValidIff(d: Durable, project: string, fs: seq<BackupFunction>)
    requires FunctionsListed(d, project, fs)
    ensures (forall i :: 0 <= i < |fs| ==> ValidFunction(fs[i])) <==> FunctionsArchivable(d, project)
  {
    hide FunctionListed, FunctionArchivable, ValidFunction;
    forall i | 0 <= i < |fs|
      ensures fs[i].name in FunctionMap(d.revisions, project) && (ValidFunction(fs[i]) <==> FunctionArchivable(d, project, fs[i].name))
    {
      ListedIsThere(d, project, fs[i]);
      FunctionValidIff(d, project, fs[i]);
    }
    forall f | f in FunctionMap(d.revisions, project) ensures exists i :: 0 <= i < |fs| && fs[i].name == f {
      assert HasFunction(fs, f);
    }
  }

  lemma ListedIsThere(d: Durable, project: string, f: BackupFunction)
    requires FunctionListed(d, project, f)
    ensures f.name in FunctionMap(d.revisions, project)
  {
  }

  lemma EntryValidIff(kv: map<Key, Json>, k: Key)
    requires k in kv && |k| >= 4
    ensures ValidKvEntry(EntryFrom(kv, k)) <==> NoEmptySegment(k)
  {
    var e := EntryFrom(kv, k);
    assert k[2] == e.namespace && forall j :: 0 <= j < |e.key| ==> k[j + 3] == e.key[j];
  }

  lemma EntriesValidIff(kv: map<Key, Json>, t: Scope, es: seq<KvEntry>)
    requires Archives(kv, t, es)
    ensures (forall i :: 0 <= i < |es| ==> ValidKvEntry(es[i])) <==> forall k :: k in KvSelected(kv, t) && |k| >= 4 ==> NoEmptySegment(k)
  {
    hide ValidKvEntry, NoEmptySegment, Listed, EntryFrom;
    var from: seq<Key> :| IsSource(kv, es, from, KvSelected(kv, t));
    if forall i :: 0 <= i < |es| ==> ValidKvEntry(es[i]) {
      forall k | k in KvSelected(kv, t) && |k| >= 4 ensures NoEmptySegment(k) {
        var i :| 0 <= i < |from| && from[i] == k;
        EntryValidIff(kv, k);
      }
    }
    if forall k :: k in KvSelected(kv, t) && |k| >= 4 ==> NoEmptySegment(k) {
      forall i | 0 <= i < |es| ensures ValidKvEntry(es[i]) { EntryValidIff(kv, from[i]); }
    }
  }

  lemma RecordFound(c: Codec, objects: map<string, Bytes>, t: Scope, os: seq<ObjectRecord>, store: string, key: string) returns (i: nat)
    requires ObjectsListed(c, objects, t, os, ObjectsUnder(objects, t))
    requires '/' !in store && ObjectKey(t.orgId, t.projectId, store, key) in objects
    ensures i < |os| && os[i].store == store && os[i].key == key
  {
    var full := ObjectKey(t.orgId, t.projectId, store, key);
    KeyUnderPrefix(t.orgId, t.projectId, store, key);
    SplitInvertsBuild(t.orgId, t.projectId, store, key);
    assert InStore(t, full) && HasObject(t, os, full);
    i :| 0 <= i < |os| && ScopedObject(t, os[i]) == full;
    ObjectKeyIsInjective(t.orgId, t.projectId, store, key, os[i].store, os[i].key);
  }

  lemma ObjectsValidIff(c: Codec, objects: map<string, Bytes>, t: Scope, os: seq<ObjectRecord>)
    requires Lawful(c) && ObjectsListed(c, objects, t, os, ObjectsUnder(objects, t))
    ensures (forall i :: 0 <= i < |os| ==> ValidObject(os[i])) <==> ObjectsArchivable(objects, t)
  {
    hide IsBase64, IsSha256Hex, IsIntegrity;
    forall i | 0 <= i < |os|
      ensures ValidObject(os[i]) <==> os[i].store != "" && os[i].key != "" && objects[ScopedObject(t, os[i])] != []
    {
      assert IsRecordOf(c, objects, t, os[i]);
    }
    if forall i :: 0 <= i < |os| ==> ValidObject(os[i]) {
      forall store, key | '/' !in store && ObjectKey(t.orgId, t.projectId, store, key) in objects
        ensures store != "" && key != "" && objects[ObjectKey(t.orgId, t.projectId, store, key)] != []
      {
        var i := RecordFound(c, objects, t, os, store, key);
        assert ValidObject(os[i]);
      }
    }
  }

  /** An assembled archive passes its own schema exactly when the stores hold nothing the schema refuses. */
  lemma ExportSucceedsIff(c: Codec, w: World, t: Scope, a: Archive)
    requires Lawful(c) && IsAssembled(c, w, t, a) && IsPrefixedUlid(a.backupId, "bak_") && t.orgId != "" && t.projectId != ""
    ensures ValidArchive(a) <==> Archivable(w, t)
  {
    hide FunctionsListed, Archives, ObjectsListed, ValidFunction, ValidKvEntry, ValidObject, FunctionsArchivable, ObjectsArchivable, NoEmptySegment, Listed;
    FunctionsValidIff(w.service.durable, t.projectId, a.functions);
    EntriesValidIff(w.kv, t, a.kv);
    ObjectsValidIff(c, w.objects, t, a.objects);
  }

  // ---------------------------------------------------------------- the round trip

  /** The record with only its project and function names replaced. */
  function Moved(r: Option<Revision>, project: string, f: string): Option<Revision> {
    match r case None => None case Some(rev) => Some(rev.(project := project, functionName := f))
  }

  ghost predicate SameFunctions(d: Durable, from: string, d': Durable, to: string) {
    forall f: string :: PointerOf(d'.pointers, to, f) == PointerOf(d.pointers, from, f)
      && forall k: string :: RecordOf(d'.revisions, to, f, k) == Moved(RecordOf(d.revisions, from, f, k), to, f)
  }

  /** The same values under namespace and key; keys too short to have both are not archived. */
  ghost predicate SameEntries(kv: map<Key, Json>, s: Scope, kv': map<Key, Json>, t: Scope) {
    forall rest: Key ::
      Lookup(kv', [t.orgId, t.projectId] + rest) == if |rest| >= 2 then Lookup(kv, [s.orgId, s.projectId] + rest) else None
  }

  ghost predicate SameObjects(objects: map<string, Bytes>, s: Scope, objects': map<string, Bytes>, t: Scope) {
    (forall store, key :: '/' !in store ==>
      Lookup(objects', ObjectKey(t.orgId, t.projectId, store, key)) == Lookup(objects, ObjectKey(s.orgId, s.projectId, store, key)))
    && forall full :: full in ObjectsUnder(objects', t) ==> InStore(t, full)
  }

  ghost predicate SameProject(w: World, s: Scope, w': World, t: Scope) {
    SameFunctions(w.service.durable, s.projectId, w'.service.durable, t.projectId)
    && SameEntries(w.kv, s, w'.kv, t) && SameObjects(w.objects, s, w'.objects, t)
  }

  ghost predicate NoFunctions(d: Durable, project: string) {
    (forall f: string :: PointerOf(d.pointers, project, f) == None) && forall f: string, k: string :: RecordOf(d.revisions, project, f, k) == None
  }

  ghost predicate EmptyTarget(w: World, t: Scope) {
    NoFunctions(w.service.durable, t.projectId) && KvUnder(w.kv, t) == {} && ObjectsUnder(w.objects, t) == {}
  }

  /** Pointers exist only for functions with a record; export lists functions by their records. */
  ghost predicate PointersListed(d: Durable, project: string) {
    forall f :: PointerOf(d.pointers, project, f).Some? ==> f in FunctionMap(d.revisions, project)
  }

  lemma ExportedOp(d: Durable, project: string, fs: seq<BackupFunction>, n: nat)
    requires FunctionsListed(d, project, fs) && n < |Ops(fs)|
    ensures var op := Ops(fs)[n]; var r := RecordOf(d.revisions, project, op.fn, op.rev.id);
      r.Some? && op.rev == BackupOf(r.value) && (op.active <==> PointerOf(d.pointers, project, op.fn) == Some(op.rev.id))
  {
    OpsFrom(fs, n);
    var i, j :| 0 <= i < |fs| && 0 <= j < |fs[i].revisions| && Ops(fs)[n] == OpOf(fs[i], j);
    assert FunctionListed(d, project, fs[i]);
  }

  lemma OpExported(d: Durable, project: string, fs: seq<BackupFunction>, f: string, k: string) returns (n: nat)
    requires FunctionsListed(d, project, fs) && RecordOf(d.revisions, project, f, k).Some?
    ensures n < |Ops(fs)| && Ops(fs)[n].fn == f && Ops(fs)[n].rev.id == k
  {
    hide Ops;
    assert HasFunction(fs, f);
    var i :| 0 <= i < |fs| && fs[i].name == f;
    assert FunctionListed(d, project, fs[i]) && HasRevision(fs[i].revisions, k);
    var j :| 0 <= j < |fs[i].revisions| && fs[i].revisions[j].id == k;
    OpsExtend(fs, i, j);
    n := |Ops(fs[..i])| + j;
  }

  lemma ExportedAgree(d: Durable, project: string, fs: seq<BackupFunction>)
    requires FunctionsListed(d, project, fs)
    ensures Agree(Ops(fs))
  {
    hide Ops, FunctionsListed;
    forall i, j | 0 <= i < j < |Ops(fs)| && SameSlot(Ops(fs)[i], Ops(fs)[j]) ensures Ops(fs)[i].rev.artifactId == Ops(fs)[j].rev.artifactId {
      ExportedOp(d, project, fs, i);
      ExportedOp(d, project, fs, j);
    }
  }

  lemma FunctionsRestore(d: Durable, from: string, fs: seq<BackupFunction>, u: Service, to: string)
    requires FunctionsListed(d, from, fs) && NoFunctions(u.durable, to)
    ensures NoConflicts(u.durable, to, Ops(fs)) && Agree(Ops(fs)) && RestoreAll(u, to, Ops(fs)).Ok?
  {
    hide Ops, FunctionsListed, Agree, RestoreAll;
    ExportedAgree(d, from, fs);
    RestoreSucceedsIff(u, to, Ops(fs));
  }

  lemma RecordRoundTrip(d: Durable, from: string, fs: seq<BackupFunction>, u: Service, to: string, f: string, k: string)
    requires FunctionsListed(d, from, fs) && NoFunctions(u.durable, to) && RestoreAll(u, to, Ops(fs)).Ok?
    ensures RecordOf(RestoreAll(u, to, Ops(fs)).value.durable.revisions, to, f, k) == Moved(RecordOf(d.revisions, from, f, k), to, f)
  {
    hide RestoreAll, Ops, FunctionsListed, LastActive;
    RestoredState(u, to, Ops(fs), f, k);
    var first := FirstOp(Ops(fs), f, k);
    if RecordOf(d.revisions, from, f, k).Some? {
      var n := OpExported(d, from, fs, f, k);
    }
    if first.Some? {
      var n :| 0 <= n < |Ops(fs)| && Ops(fs)[n] == first.value;
      ExportedOp(d, from, fs, n);
    }
  }

  lemma PointerRoundTrip(d: Durable, from: string, fs: seq<BackupFunction>, u: Service, to: string, f: string)
    requires FunctionsListed(d, from, fs) && NoFunctions(u.durable, to) && RestoreAll(u, to, Ops(fs)).Ok?
    requires PointersListed(d, from) && forall i :: 0 <= i < |fs| ==> ValidFunction(fs[i])
    ensures PointerOf(RestoreAll(u, to, Ops(fs)).value.durable.pointers, to, f) == PointerOf(d.pointers, from, f)
  {
    hide RestoreAll, Ops, FunctionsListed, FirstOp, ValidRevision, IsPrefixedUlid;
    RestoredState(u, to, Ops(fs), f, "");
    var last, was := LastActive(Ops(fs), f), PointerOf(d.pointers, from, f);
    if last.Some? {
      var n :| 0 <= n < |Ops(fs)| && Ops(fs)[n].fn == f && Ops(fs)[n].active && Ops(fs)[n].rev.id == last.value;
      ExportedOp(d, from, fs, n);
    } else if was.Some? {
      var i := FunctionExported(d, from, fs, f);
      assert ValidFunction(fs[i]) && HoldsRevision(fs[i], was.value);
      var j :| 0 <= j < |fs[i].revisions| && fs[i].revisions[j].id == was.value;
      OpsExtend(fs, i, j);
      assert false;
    }
  }

  lemma FunctionExported(d: Durable, project: string, fs: seq<BackupFunction>, f: string) returns (i: nat)
    requires FunctionsListed(d, project, fs) && f in FunctionMap(d.revisions, project)
    ensures i < |fs| && fs[i].name == f && fs[i].activeRevisionId == PointerOf(d.pointers, project, f)
  {
    assert HasFunction(fs, f);
    i :| 0 <= i < |fs| && fs[i].name == f;
    assert FunctionListed(d, project, fs[i]);
  }

  lemma EntriesRoundTrip(kv: map<Key, Json>, s: Scope, es: seq<KvEntry>, kv': map<Key, Json>, t: Scope)
    requires KvListed(kv, s, es, KvUnder(kv, s)) && KvUnder(kv', t) == {}
    ensures SameEntries(kv, s, Written(kv', KvPairs(t, es)), t)
  {
    var pairs := KvPairs(t, es);
    forall i, j | 0 <= i < j < |pairs| ensures pairs[i].0 != pairs[j].0 {
      Rescoped(s, t, es[i]);
      Rescoped(s, t, es[j]);
    }
    forall rest: Key
      ensures Lookup(Written(kv', pairs), [t.orgId, t.projectId] + rest) == if |rest| >= 2 then Lookup(kv, [s.orgId, s.projectId] + rest) else None
    {
      var k, k' := [s.orgId, s.projectId] + rest, [t.orgId, t.projectId] + rest;
      assert k' !in kv' by { assert k' !in KvUnder(kv', t); }
      assert k[2..] == rest && k'[2..] == rest;
      if i :| 0 <= i < |es| && ScopedKey(t, es[i]) == k' {
        Rescoped(s, t, es[i]);
        WrittenHolds(kv', pairs, i);
        assert pairs[i].0 == k';
      } else {
        UnwrittenStays(kv', pairs, k');
        if |rest| >= 2 && k in kv {
          assert HasEntry(s, es, k);
          var i :| 0 <= i < |es| && ScopedKey(s, es[i]) == k;
          Rescoped(s, t, es[i]);
          assert false;
        }
      }
    }
  }

  lemma Rescoped(s: Scope, t: Scope, e: KvEntry)
    ensures ScopedKey(s, e) == [s.orgId, s.projectId] + ([e.namespace] + e.key) && ScopedKey(s, e)[2..] == [e.namespace] + e.key
    ensures ScopedKey(t, e) == [t.orgId, t.projectId] + ([e.namespace] + e.key) && ScopedKey(t, e)[2..] == [e.namespace] + e.key
  {
  }

  /** The store the archive is imported into holds the large payloads under their hashes. */
  predicate PayloadsHeld(source: map<string, Bytes>, s: Scope, objects: map<string, Bytes>, os: seq<ObjectRecord>) {
    forall i :: 0 <= i < |os| && os[i].dataBase64.None? ==> Lookup(objects, CasKey(os[i].sha256)) == Lookup(source, ScopedObject(s, os[i]))
  }

  lemma RecordYieldsBytes(c: Codec, source: map<string, Bytes>, s: Scope, objects: map<string, Bytes>, os: seq<ObjectRecord>, i: nat)
    requires Lawful(c) && i < |os| && IsRecordOf(c, source, s, os[i]) && PayloadsHeld(source, s, objects, os)
    ensures Payload(c, objects, os[i]) == Some(source[ScopedObject(s, os[i])]) && PayloadMatches(c, objects, os[i]) && PayloadPresent(objects, os[i])
  {
  }

  lemma ObjectsRoundTrip(c: Codec, source: map<string, Bytes>, s: Scope, os: seq<ObjectRecord>, objects: map<string, Bytes>, t: Scope)
    requires Lawful(c) && ObjectsListed(c, source, s, os, ObjectsUnder(source, s)) && ObjectsUnder(objects, t) == {}
    requires PayloadsHeld(source, s, objects, os)
    ensures SameObjects(source, s, Written(objects, ObjectPairs(c, objects, t, os)), t)
  {
    hide Lawful, PayloadsHeld, PayloadMatches, PayloadPresent, InStore;
    var pairs := ObjectPairs(c, objects, t, os);
    forall i | 0 <= i < |os| ensures '/' !in os[i].store && pairs[i] == (ScopedObject(t, os[i]), source[ScopedObject(s, os[i])]) {
      assert IsRecordOf(c, source, s, os[i]);
      RecordYieldsBytes(c, source, s, objects, os, i);
    }
    forall i, j | 0 <= i < j < |pairs| ensures pairs[i].0 != pairs[j].0 {
      if pairs[i].0 == pairs[j].0 {
        ObjectKeyIsInjective(t.orgId, t.projectId, os[i].store, os[i].key, os[j].store, os[j].key);
        assert false;
      }
    }
    var written := Written(objects, pairs);
    forall store, key | '/' !in store
      ensures Lookup(written, ObjectKey(t.orgId, t.projectId, store, key)) == Lookup(source, ObjectKey(s.orgId, s.projectId, store, key))
    {
      ObjectRoundTrip(c, source, s, os, objects, t, store, key);
    }
    forall full | full in ObjectsUnder(written, t) ensures InStore(t, full) {
      assert full !in objects by { assert full !in ObjectsUnder(objects, t); }
      if !Writes(pairs, full) { UnwrittenStays(objects, pairs, full); }
      var i :| 0 <= i < |pairs| && pairs[i].0 == full;
      BuiltIsInStore(t, os[i].store, os[i].key);
    }
  }

  lemma BuiltIsInStore(t: Scope, store: string, key: string)
    requires '/' !in store
    ensures InStore(t, ObjectKey(t.orgId, t.projectId, store, key))
  {
    KeyUnderPrefix(t.orgId, t.projectId, store, key);
    SplitInvertsBuild(t.orgId, t.projectId, store, key);
  }

  lemma ObjectRoundTrip(c: Codec, source: map<string, Bytes>, s: Scope, os: seq<ObjectRecord>, objects: map<string, Bytes>, t: Scope, store: string, key: string)
    requires ObjectsListed(c, source, s, os, ObjectsUnder(source, s)) && ObjectsUnder(objects, t) == {} && '/' !in store
    requires var pairs := ObjectPairs(c, objects, t, os);
      KeysApart(pairs) && forall i :: 0 <= i < |os| ==> pairs[i] == (ScopedObject(t, os[i]), source[ScopedObject(s, os[i])])
    ensures Lookup(Written(objects, ObjectPairs(c, objects, t, os)), ObjectKey(t.orgId, t.projectId, store, key))
      == Lookup(source, ObjectKey(s.orgId, s.projectId, store, key))
  {
    hide InStore, Payload;
    var pairs, full := ObjectPairs(c, objects, t, os), ObjectKey(t.orgId, t.projectId, store, key);
    if ObjectKey(s.orgId, s.projectId, store, key) in source {
      var i := RecordFound(c, source, s, os, store, key);
      WrittenHolds(objects, pairs, i);
    } else {
      KeyUnderPrefix(t.orgId, t.projectId, store, key);
      assert full !in objects by { assert full !in ObjectsUnder(objects, t); }
      forall i | 0 <= i < |pairs| ensures pairs[i].0 != full {
        assert IsRecordOf(c, source, s, os[i]);
        if pairs[i].0 == full { ObjectKeyIsInjective(t.orgId, t.projectId, store, key, os[i].store, os[i].key); }
      }
      UnwrittenStays(objects, pairs, full);
    }
  }
}

/**
  The state backup service (apps/api/state-backup-service.ts): export walks the three
  stores page by page, import checks an archive and restores it under another prefix.
*/
module StateBackup {
  import opened Options
  import opened Ulid
  import opened Deployment
  import opened Persistence
  import opened Stores
  import opened StoreKeys
  import opened KvPaths
  import opened BackupArchive

  datatype ImportResult = ImportResult(restoredRevisions: nat, restoredKvKeys: nat, restoredObjects: nat)

  // ---------------------------------------------------------------- what an export holds

  /** The entries are, once each, the listed keys with at least a namespace and one segment. */
  ghost predicate KvListed(kv: map<Key, Json>, t: Scope, es: seq<KvEntry>, done: set<Key>) {
    (forall i :: 0 <= i < |es| ==> es[i].key != [] && ScopedKey(t, es[i]) in done && Lookup(kv, ScopedKey(t, es[i])) == Some(es[i].value))
    && (forall i, j :: 0 <= i < j < |es| ==> ScopedKey(t, es[i]) != ScopedKey(t, es[j]))
    && forall k :: k in done && |k| >= 4 ==> HasEntry(t, es, k)
  }

  /** The entry an export makes of a listed key, whatever its first two segments are. */
  function EntryFrom(kv: map<Key, Json>, k: Key): KvEntry
    requires k in kv && |k| >= 4
  {
    KvEntry(k[2], k[3..], kv[k])
  }

  /** The entries come one by one from the keys `from`, which are those of `keys` with at
      least a namespace and one segment. */
  ghost predicate IsSource(kv: map<Key, Json>, es: seq<KvEntry>, from: seq<Key>, keys: set<Key>) {
    |from| == |es| && NoneTwice(from)
    && (forall i :: 0 <= i < |from| ==> from[i] in keys && from[i] in kv && |from[i]| >= 4 && es[i] == EntryFrom(kv, from[i]))
    && forall k :: k in keys && |k| >= 4 ==> k in from
  }

  /** The keys a listing of the project selects. */
  function KvSelected(kv: map<Key, Json>, t: Scope): set<Key> { set k | k in kv && Listed([t.orgId, t.projectId], k) }

  ghost predicate Archives(kv: map<Key, Json>, t: Scope, es: seq<KvEntry>) {
    exists from: seq<Key> :: IsSource(kv, es, from, KvSelected(kv, t))
  }

  ghost predicate HasEntry(t: Scope, es: seq<KvEntry>, k: Key) { exists i :: 0 <= i < |es| && ScopedKey(t, es[i]) == k }

  function ObjectRecordOf(c: Codec, store: string, key: string, bytes: Bytes): ObjectRecord {
    ObjectRecord(store, key, |bytes|, c.sha256(bytes), c.integrity(bytes),
      if |bytes| < MAX_INLINE_OBJECT_BYTES then Some(c.encode(bytes)) else None)
  }

  predicate IsRecordOf(c: Codec, objects: map<string, Bytes>, t: Scope, o: ObjectRecord) {
    '/' !in o.store && ScopedObject(t, o) in objects && o == ObjectRecordOf(c, o.store, o.key, objects[ScopedObject(t, o)])
  }

  ghost predicate HasObject(t: Scope, os: seq<ObjectRecord>, k: string) { exists i :: 0 <= i < |os| && ScopedObject(t, os[i]) == k }

  function Relative(t: Scope, full: string): string
    requires |ObjectPrefix(t.orgId, t.projectId)| <= |full|
  {
    full[|ObjectPrefix(t.orgId, t.projectId)|..]
  }

  predicate InStore(t: Scope, full: string) { ObjectPrefix(t.orgId, t.projectId) <= full && '/' in Relative(t, full) }

  /** The records describe, once each, the listed objects that lie in a store. */
  ghost predicate ObjectsListed(c: Codec, objects: map<string, Bytes>, t: Scope, os: seq<ObjectRecord>, done: set<string>) {
    (forall i :: 0 <= i < |os| ==> ScopedObject(t, os[i]) in done && IsRecordOf(c, objects, t, os[i]))
    && (forall i, j :: 0 <= i < j < |os| ==> ScopedObject(t, os[i]) != ScopedObject(t, os[j]))
    && forall k :: k in done && InStore(t, k) ==> HasObject(t, os, k)
  }

  function BackupOf(r: Revision): BackupRevision {
    BackupRevision(r.id, r.artifactId, r.integrity, r.state, r.createdAt, r.manifest)
  }

  ghost predicate RevisionsListed(m: map<string, Revision>, rs: seq<BackupRevision>) {
    (forall j :: 0 <= j < |rs| ==> rs[j].id in m && rs[j] == BackupOf(m[rs[j].id]))
    && (forall i, j :: 0 <= i < j < |rs| ==> rs[i].id != rs[j].id)
    && forall k :: k in m ==> HasRevision(rs, k)
  }

  ghost predicate HasRevision(rs: seq<BackupRevision>, id: string) { exists j :: 0 <= j < |rs| && rs[j].id == id }

  ghost predicate HasFunction(fs: seq<BackupFunction>, name: string) { exists i :: 0 <= i < |fs| && fs[i].name == name }

  function FunctionMap(rs: Records, project: string): map<string, map<string, Revision>> {
    if project in rs then rs[project] else map[]
  }

  ghost predicate FunctionListed(d: Durable, project: string, f: BackupFunction) {
    f.name in FunctionMap(d.revisions, project)
    && f.activeRevisionId == PointerOf(d.pointers, project, f.name)
    && RevisionsListed(FunctionMap(d.revisions, project)[f.name], f.revisions)
  }

  ghost predicate FunctionsListed(d: Durable, project: string, fs: seq<BackupFunction>) {
    (forall i :: 0 <= i < |fs| ==> FunctionListed(d, project, fs[i]))
    && (forall i, j :: 0 <= i < j < |fs| ==> fs[i].name != fs[j].name)
    && forall name :: name in FunctionMap(d.revisions, project) ==> HasFunction(fs, name)
  }

  function KvUnder(kv: map<Key, Json>, t: Scope): set<Key> { set k | k in kv && [t.orgId, t.projectId] <= k }

  function ObjectsUnder(objects: map<string, Bytes>, t: Scope): set<string> { set k | k in objects && ObjectPrefix(t.orgId, t.projectId) <= k }

  /** What an export assembles: functions and objects of the project, and an entry for every
      key the listing selects. */
  ghost predicate IsAssembled(c: Codec, w: World, t: Scope, a: Archive) {
    a.orgId == t.orgId && a.projectId == t.projectId && a.name == t.projectId
    && FunctionsListed(w.service.durable, t.projectId, a.functions)
    && Archives(w.kv, t, a.kv)
    && ObjectsListed(c, w.objects, t, a.objects, ObjectsUnder(w.objects, t))
  }

  /** Every selected key that becomes an entry lies under the project. */
  predicate SelectsOnlyOwn(kv: map<Key, Json>, t: Scope) {
    forall k :: k in kv && |k| >= 4 && Listed([t.orgId, t.projectId], k) ==> [t.orgId, t.projectId] <= k
  }

  predicate IsCasOf(os: seq<ObjectRecord>, key: string) {
    exists i :: 0 <= i < |os| && os[i].dataBase64.None? && CasKey(os[i].sha256) == key
  }

  /** An archived object tells its size and digests, and carries its bytes exactly below 256 KiB. */
  lemma RecordDescribes(c: Codec, objects: map<string, Bytes>, t: Scope, o: ObjectRecord)
    requires IsRecordOf(c, objects, t, o)
    ensures var bytes := objects[ScopedObject(t, o)];
      o.sizeBytes == |bytes| && o.sha256 == c.sha256(bytes) && o.integrity == c.integrity(bytes)
      && (if |bytes| < 262144 then o.dataBase64 == Some(c.encode(bytes)) else o.dataBase64 == None)
  {
  }

  /** What an export writes before the archive itself: large payloads under their hash. */
  ghost predicate PayloadsStored(c: Codec, before: map<string, Bytes>, after: map<string, Bytes>, os: seq<ObjectRecord>) {
    (forall k :: !IsCasOf(os, k) ==> Lookup(after, k) == Lookup(before, k))
    && forall i :: 0 <= i < |os| && os[i].dataBase64.None? ==> StoresHash(c, after, os[i].sha256)
  }

  predicate StoresHash(c: Codec, objects: map<string, Bytes>, sha256: string) {
    CasKey(sha256) in objects && c.sha256(objects[CasKey(sha256)]) == sha256
  }

  /** The library calls do what they are for; base64 text is empty only for no bytes. */
  ghost predicate Lawful(c: Codec) {
    (forall b :: IsSha256Hex(c.sha256(b))) && (forall b :: IsIntegrity(c.integrity(b)))
    && (forall b :: IsBase64(c.encode(b)) <==> b != []) && forall b :: c.decode(c.encode(b)) == Some(b)
  }

  predicate StorageKeyAllowed(key: string) {
    !("/" <= key) && !Contains(key, "..") && '\\' !in key && '\0' !in key && Trim(key) == key
  }

  /** A caller may name the archive's key anything that does not begin with a slash or lead
      upwards, holds no backslash or NUL, and has no white space around it. */
  lemma StorageKeyAllowedIff(key: string)
    ensures StorageKeyAllowed(key) <==>
      (forall i :: 0 <= i < |key| ==> key[i] != '\\' && key[i] != '\0' && !DotsAt(key, i))
      && (key != "" ==> key[0] != '/' && !IsSpace(key[0]) && !IsSpace(key[|key| - 1]))
  {
    DotsIff(key);
    var _, _ := TrimCuts(key);
    if key != "" && !IsSpace(key[0]) && !IsSpace(key[|key| - 1]) { assert Trim(key) == TrimStart(key) == key; }
    hide Contains, Trim;
  }

  // ---------------------------------------------------------------- steps of the export

  lemma EntryAdded(kv: map<Key, Json>, es: seq<KvEntry>, from: seq<Key>, done: set<Key>, k: Key)
    requires IsSource(kv, es, from, done) && k in kv && k !in done
    ensures |k| < 4 ==> IsSource(kv, es, from, done + {k})
    ensures |k| >= 4 ==> IsSource(kv, es + [EntryFrom(kv, k)], from + [k], done + {k})
  {
    if |k| >= 4 {
      assert forall x :: x in done && |x| >= 4 ==> x in from + [k];
    }
  }

  lemma SourceOf(kv: map<Key, Json>, es: seq<KvEntry>, from: seq<Key>, keys: set<Key>, k: Key) returns (i: nat)
    requires IsSource(kv, es, from, keys) && k in keys && |k| >= 4
    ensures k in kv && i < |from| == |es| && from[i] == k && es[i] == EntryFrom(kv, k)
  {
    assert k in from;
    i :| 0 <= i < |from| && from[i] == k;
  }

  /** The path of an own key is selected, so an export loses none. */
  lemma OwnIsSelected(kv: map<Key, Json>, t: Scope)
    ensures KvUnder(kv, t) <= KvSelected(kv, t)
  {
    forall k | k in KvUnder(kv, t) ensures Listed([t.orgId, t.projectId], k) {
      UnderIsListed([t.orgId, t.projectId], k);
    }
  }

  lemma EntryOfOwn(kv: map<Key, Json>, t: Scope, k: Key)
    requires k in kv && |k| >= 4
    ensures ScopedKey(t, EntryFrom(kv, k)) == [t.orgId, t.projectId] + k[2..]
    ensures [t.orgId, t.projectId] <= k <==> ScopedKey(t, EntryFrom(kv, k)) == k
  {
    assert k == [k[0], k[1]] + k[2..] && k[2..] == [k[2]] + k[3..];
    assert ScopedKey(t, EntryFrom(kv, k)) == [t.orgId, t.projectId] + k[2..];
  }

  /** The archived entries describe the project's store, all of it and nothing else, exactly
      when the listing selects no entry of another project. */
  lemma ArchiveIsExactIff(kv: map<Key, Json>, t: Scope, es: seq<KvEntry>)
    requires Archives(kv, t, es)
    ensures KvListed(kv, t, es, KvUnder(kv, t)) <==> SelectsOnlyOwn(kv, t)
  {
    var from: seq<Key> :| IsSource(kv, es, from, KvSelected(kv, t));
    hide Listed;
    if SelectsOnlyOwn(kv, t) {
      OwnSourceIsListed(kv, t, es, from);
    } else {
      var k :| k in kv && |k| >= 4 && Listed([t.orgId, t.projectId], k) && !([t.orgId, t.projectId] <= k);
      ForeignIsNotListed(kv, t, es, from, k);
    }
  }

  lemma OwnSourceIsListed(kv: map<Key, Json>, t: Scope, es: seq<KvEntry>, from: seq<Key>)
    requires IsSource(kv, es, from, KvSelected(kv, t)) && SelectsOnlyOwn(kv, t)
    ensures KvListed(kv, t, es, KvUnder(kv, t))
  {
    OwnIsSelected(kv, t);
    hide Listed, ScopedKey, EntryFrom;
    forall i | 0 <= i < |es| ensures ScopedKey(t, es[i]) == from[i] && es[i].key != [] && Lookup(kv, from[i]) == Some(es[i].value) {
      EntryOfOwn(kv, t, from[i]);
      EntryParts(kv, from[i]);
    }
    forall k | k in KvUnder(kv, t) && |k| >= 4 ensures HasEntry(t, es, k) {
      assert k in from;
    }
  }

  lemma EntryParts(kv: map<Key, Json>, k: Key)
    requires k in kv && |k| >= 4
    ensures EntryFrom(kv, k).key != [] && EntryFrom(kv, k).value == kv[k]
  {
  }

  lemma ForeignIsNotListed(kv: map<Key, Json>, t: Scope, es: seq<KvEntry>, from: seq<Key>, k: Key)
    requires IsSource(kv, es, from, KvSelected(kv, t)) && k in KvSelected(kv, t) && |k| >= 4 && !([t.orgId, t.projectId] <= k)
    ensures !KvListed(kv, t, es, KvUnder(kv, t))
  {
    hide Listed, ScopedKey, EntryFrom;
    var own := [t.orgId, t.projectId] + k[2..];
    var i :| 0 <= i < |from| && from[i] == k;
    EntryOfOwn(kv, t, k);
    if own in kv {
      OwnIsSelected(kv, t);
      assert own in KvUnder(kv, t) && own[2..] == k[2..];
      var j :| 0 <= j < |from| && from[j] == own;
      EntryOfOwn(kv, t, own);
      assert i != j && ScopedKey(t, es[i]) == ScopedKey(t, es[j]);
    }
  }

  lemma ObjectPassed(c: Codec, objects: map<string, Bytes>, t: Scope, os: seq<ObjectRecord>, done: set<string>, k: string)
    requires ObjectsListed(c, objects, t, os, done) && !InStore(t, k)
    ensures ObjectsListed(c, objects, t, os, done + {k})
  {
  }

  lemma ObjectAdded(c: Codec, objects: map<string, Bytes>, t: Scope, os: seq<ObjectRecord>, done: set<string>, k: string, slash: nat)
    requires ObjectsListed(c, objects, t, os, done) && k in objects && k !in done && ObjectPrefix(t.orgId, t.projectId) <= k
    requires IndexOf(Relative(t, k), '/') == Some(slash)
    ensures ObjectsListed(c, objects, t, os + [ObjectRecordOf(c, Relative(t, k)[..slash], Relative(t, k)[slash + 1..], objects[k])], done + {k})
  {
    BuildInvertsSplit(t.orgId, t.projectId, k, slash);
    var o := ObjectRecordOf(c, Relative(t, k)[..slash], Relative(t, k)[slash + 1..], objects[k]);
    var os' := os + [o];
    assert ScopedObject(t, os'[|os|]) == k;
    forall x | x in done + {k} && InStore(t, x) ensures HasObject(t, os', x) {
      if x != k {
        assert HasObject(t, os, x);
        var i :| 0 <= i < |os| && ScopedObject(t, os[i]) == x;
        assert os'[i] == os[i];
      }
    }
  }

  lemma InlineAdded(c: Codec, before: map<string, Bytes>, now: map<string, Bytes>, os: seq<ObjectRecord>, o: ObjectRecord)
    requires PayloadsStored(c, before, now, os) && o.dataBase64.Some?
    ensures PayloadsStored(c, before, now, os + [o])
  {
    var os' := os + [o];
    assert forall k :: IsCasOf(os, k) ==> IsCasOf(os', k) by {
      assert forall i :: 0 <= i < |os| ==> os'[i] == os[i];
    }
  }

  lemma LargeAdded(c: Codec, before: map<string, Bytes>, now: map<string, Bytes>, os: seq<ObjectRecord>, o: ObjectRecord, bytes: Bytes)
    requires PayloadsStored(c, before, now, os) && o.dataBase64.None? && o.sha256 == c.sha256(bytes)
    ensures PayloadsStored(c, before, now[CasKey(o.sha256) := bytes], os + [o])
  {
    var os' := os + [o];
    assert os'[|os|] == o && forall i :: 0 <= i < |os| ==> os'[i] == os[i];
    forall k | !IsCasOf(os', k) ensures !IsCasOf(os, k) && k != CasKey(o.sha256) {
    }
    forall i | 0 <= i < |os'| && os'[i].dataBase64.None? ensures StoresHash(c, now[CasKey(o.sha256) := bytes], os'[i].sha256) {
      assert CasKey(os'[i].sha256) == CasKey(o.sha256) ==> os'[i].sha256 == o.sha256 by {
        assert forall s: string :: CasKey(s)[10..] == s;
      }
      assert i < |os| ==> StoresHash(c, now, os[i].sha256);
    }
  }

  /** Listing has shown `done`; `cursor` points after it, or nothing is left. */
  ghost predicate ShownSoFar<K(!new)>(keys: set<K>, path: K -> string, done: set<K>, cursor: Option<string>, first: bool) {
    done <= keys
    && (if first then done == {} && cursor.None?
        else if cursor.Some? then Remaining(keys, path, cursor) == keys - done
        else done == keys)
  }

  lemma PageShown<K(!new)>(keys: set<K>, path: K -> string, done: set<K>, cursor: Option<string>, first: bool, page: seq<K>, next: Option<string>)
    requires ShownSoFar(keys, path, done, cursor, first) && (first || cursor.Some?) && IsPage(page, keys, path, cursor, next)
    ensures ShownSoFar(keys, path, done + (set k | k in page), next, false)
    ensures forall k :: k in page ==> k in keys && k !in done
    ensures next.Some? ==> |Remaining(keys, path, next)| < |Remaining(keys, path, cursor)|
  {
    assert Remaining(keys, path, cursor) == keys - done;
    if next.Some? {
      assert page[0] in Remaining(keys, path, cursor) && page[0] !in Remaining(keys, path, next);
      StrictSubset(Remaining(keys, path, next), Remaining(keys, path, cursor));
    }
  }

  lemma StrictSubset<K>(a: set<K>, b: set<K>)
    requires a < b
    ensures |a| < |b|
  {
    assert b == a + (b - a);
  }

  method KeysOf<V>(m: map<string, V>) returns (keys: seq<string>)
    ensures NoneTwice(keys) && forall k :: k in keys <==> k in m
  {
    keys := [];
    var rest := m.Keys;
    while rest != {}
      invariant NoneTwice(keys) && rest <= m.Keys
      invariant forall k :: k in keys <==> k in m && k !in rest
      decreases rest
    {
      var k :| k in rest;
      keys, rest := keys + [k], rest - {k};
    }
  }
}

/** The main results on backups: when a project survives export and import, and when it does not. */
module BackupTheorems {
  import opened Options
  import opened Ulid
  import opened Deployment
  import opened Stores
  import opened StoreKeys
  import opened KvPaths
  import opened BackupArchive
  import opened StateBackup
  import opened BackupService
  import opened BackupRoundTrip

  predicate JoinedApart(t: Scope, es: seq<KvEntry>) {
    forall i, j :: 0 <= i < j < |es| ==> Join(ScopedKey(t, es[i])) != Join(ScopedKey(t, es[j]))
  }

  lemma GatePassesIff(kv: map<Key, Json>, t: Scope, a: Archive)
    requires KvUnder(kv, t) == {}
    ensures Gate(kv, t, a.kv, |a.kv|).None? <==> AllFit(t, a) && JoinedApart(t, a.kv)
  {
    forall i | 0 <= i < |a.kv| ensures ScopedKey(t, a.kv[i]) !in kv {
      NotUnder(kv, t, a.kv[i]);
    }
    hide KeyFits;
    forall i | 0 <= i < |a.kv|
      ensures GateEntry(kv, t, a.kv, i).None? <==> KeyFits(ScopedKey(t, a.kv[i])) && forall j :: 0 <= j < i ==> Join(ScopedKey(t, a.kv[j])) != Join(ScopedKey(t, a.kv[i]))
    {
    }
  }

  lemma NotUnder(kv: map<Key, Json>, t: Scope, e: KvEntry)
    requires KvUnder(kv, t) == {}
    ensures ScopedKey(t, e) !in kv
  {
    Rescoped(t, t, e);
    assert ScopedKey(t, e) !in KvUnder(kv, t);
  }

  /** Importing an export into an empty project succeeds exactly when the archived names
      are free of traversal texts, the rescoped keys fit, and, without overwrite, no two
      keys join to one text.  It then yields the same functions and objects under the new
      names, and the same entries if the export's listing selected only own keys; without
      overwrite, only if. */
  lemma RoundTripIff(c: Codec, w: World, s: Scope, a: Archive, v: World, t: Scope, overwriteKv: bool)
    requires Lawful(c) && IsAssembled(c, w, s, a) && ValidArchive(a)
    requires ValidIdentifier(s.orgId) && ValidIdentifier(s.projectId) && ValidIdentifier(t.orgId) && ValidIdentifier(t.projectId)
    requires PointersListed(w.service.durable, s.projectId)
    requires EmptyTarget(v, t) && PayloadsHeld(w.objects, s, v.objects, a.objects)
    ensures var (after, error) := Imported(c, v, t, a, overwriteKv);
      (error.None? <==> AllSafe(a) && AllFit(t, a) && (overwriteKv || JoinedApart(t, a.kv)))
      && (error.None? ==> SameFunctions(w.service.durable, s.projectId, after.service.durable, t.projectId) && SameObjects(w.objects, s, after.objects, t))
      && (error.None? && SelectsOnlyOwn(w.kv, s) ==> SameProject(w, s, after, t))
      && (error.None? && !overwriteKv ==> (SameProject(w, s, after, t) <==> SelectsOnlyOwn(w.kv, s)))
  {
    hide FunctionsListed, Archives, ObjectsListed, Lawful, PointersListed, PayloadsHeld, ValidIdentifier, SelectsOnlyOwn, JoinedApart;
    hide Ops, RestoreAll, Gate, AllSafe, AllFit, Agree, NoConflicts, Written, SameFunctions, SameEntries, SameObjects, NoFunctions, ValidFunction, ValidKvEntry, ValidObject;
    FunctionsRestore(w.service.durable, s.projectId, a.functions, v.service, t.projectId);
    PayloadsMatch(c, w.objects, s, v.objects, a);
    GatePassesIff(v.kv, t, a);
    PassesIff(v, t, a, overwriteKv);
    if Precheck(v, t, a, overwriteKv).None? {
      PassedImportSucceedsIff(c, v, t, a, overwriteKv);
    }
    if Imported(c, v, t, a, overwriteKv).1.None? {
      FunctionsRoundTrip(w.service.durable, s.projectId, a.functions, v.service, t.projectId);
      ObjectsRoundTrip(c, w.objects, s, a.objects, v.objects, t);
      SuccessWritesAll(c, v, t, a, overwriteKv);
      EntriesRoundTripIff(w.kv, s, a.kv, v.kv, t);
    }
  }

  /** The entries come back as the project's if only own keys were selected, and, when no two
      rescoped keys are equal, only if. */
  lemma EntriesRoundTripIff(kv: map<Key, Json>, s: Scope, es: seq<KvEntry>, kv': map<Key, Json>, t: Scope)
    requires Archives(kv, s, es) && KvUnder(kv', t) == {}
    ensures SelectsOnlyOwn(kv, s) ==> SameEntries(kv, s, Written(kv', KvPairs(t, es)), t)
    ensures JoinedApart(t, es) ==> (SameEntries(kv, s, Written(kv', KvPairs(t, es)), t) <==> SelectsOnlyOwn(kv, s))
  {
    hide Listed, Written, SameEntries;
    if SelectsOnlyOwn(kv, s) {
      ArchiveIsExactIff(kv, s, es);
      EntriesRoundTrip(kv, s, es, kv', t);
    } else if JoinedApart(t, es) {
      var k :| k in kv && |k| >= 4 && Listed([s.orgId, s.projectId], k) && !([s.orgId, s.projectId] <= k);
      ForeignEntryIsRestored(kv, s, es, kv', t, k);
    }
  }

  /** An entry of another project that the listing selected turns up in the restored one. */
  lemma ForeignEntryIsRestored(kv: map<Key, Json>, s: Scope, es: seq<KvEntry>, kv': map<Key, Json>, t: Scope, k: Key)
    requires Archives(kv, s, es) && JoinedApart(t, es)
    requires k in kv && |k| >= 4 && Listed([s.orgId, s.projectId], k) && !([s.orgId, s.projectId] <= k)
    ensures Lookup(Written(kv', KvPairs(t, es)), [t.orgId, t.projectId] + k[2..]) == Some(kv[k])
    ensures [s.orgId, s.projectId] + k[2..] !in kv
    ensures !SameEntries(kv, s, Written(kv', KvPairs(t, es)), t)
  {
    var from: seq<Key> :| IsSource(kv, es, from, KvSelected(kv, s));
    ForeignIsSelected(kv, s, k);
    hide Listed, Join, EntryFrom, ScopedKey, IsSource, KvSelected, Written, JoinedApart, Archives;
    var pairs := KvPairs(t, es);
    var i := SourceOf(kv, es, from, KvSelected(kv, s), k);
    EntryOfOwn(kv, t, k);
    EntryParts(kv, k);
    PairsApart(t, es);
    WrittenHolds(kv', pairs, i);
    TwinIsAbsent(kv, s, es, from, t, k, i);
    NotTheSame(kv, s, Written(kv', pairs), t, k[2..]);
  }

  lemma ForeignIsSelected(kv: map<Key, Json>, s: Scope, k: Key)
    requires k in kv && Listed([s.orgId, s.projectId], k)
    ensures k in KvSelected(kv, s)
  {
    hide Listed;
  }

  lemma NotTheSame(kv: map<Key, Json>, s: Scope, kv': map<Key, Json>, t: Scope, rest: Key)
    requires |rest| >= 2 && [s.orgId, s.projectId] + rest !in kv && Lookup(kv', [t.orgId, t.projectId] + rest).Some?
    ensures !SameEntries(kv, s, kv', t)
  {
    assert Lookup(kv', [t.orgId, t.projectId] + rest) != Lookup(kv, [s.orgId, s.projectId] + rest);
  }

  /** The project has no entry of its own where the foreign one goes: their rescoped keys would be equal. */
  lemma TwinIsAbsent(kv: map<Key, Json>, s: Scope, es: seq<KvEntry>, from: seq<Key>, t: Scope, k: Key, i: nat)
    requires IsSource(kv, es, from, KvSelected(kv, s)) && JoinedApart(t, es)
    requires i < |from| == |es| && from[i] == k && k in kv && |k| >= 4 && es[i] == EntryFrom(kv, k) && !([s.orgId, s.projectId] <= k)
    ensures [s.orgId, s.projectId] + k[2..] !in kv
  {
    OwnIsSelected(kv, s);
    hide Listed, Join, EntryFrom, ScopedKey, IsSource, KvSelected, JoinedApart;
    var own := [s.orgId, s.projectId] + k[2..];
    assert own[2..] == k[2..] && [s.orgId, s.projectId] <= own;
    if own in kv {
      assert own in KvUnder(kv, s);
      var j := SourceOf(kv, es, from, KvSelected(kv, s), own);
      EntryOfOwn(kv, t, own);
      EntryOfOwn(kv, t, k);
      SameKeyIsSameEntry(t, es, i, j);
      assert false;
    }
  }

  lemma PairsApart(t: Scope, es: seq<KvEntry>)
    requires JoinedApart(t, es)
    ensures KeysApart(KvPairs(t, es))
  {
    hide Join, ScopedKey;
  }

  lemma SameKeyIsSameEntry(t: Scope, es: seq<KvEntry>, i: nat, j: nat)
    requires JoinedApart(t, es) && i < |es| && j < |es| && ScopedKey(t, es[i]) == ScopedKey(t, es[j])
    ensures i == j
  {
    hide Join, ScopedKey;
  }

  lemma PassesIff(v: World, t: Scope, a: Archive, overwriteKv: bool)
    requires ValidArchive(a) && ValidIdentifier(a.orgId) && ValidIdentifier(a.projectId) && ValidIdentifier(t.orgId) && ValidIdentifier(t.projectId)
    requires AllPresent(v.objects, a) && NoConflicts(v.service.durable, t.projectId, Ops(a.functions))
    ensures Precheck(v, t, a, overwriteKv).None? <==> AllSafe(a) && (overwriteKv || Gate(v.kv, t, a.kv, |a.kv|).None?)
  {
    hide ValidArchive, ValidIdentifier, AllPresent, NoConflicts, AllSafe, Gate;
  }

  lemma PayloadsMatch(c: Codec, source: map<string, Bytes>, s: Scope, objects: map<string, Bytes>, a: Archive)
    requires Lawful(c) && ObjectsListed(c, source, s, a.objects, ObjectsUnder(source, s)) && PayloadsHeld(source, s, objects, a.objects)
    ensures AllPresent(objects, a) && AllMatch(c, objects, a)
  {
    hide Lawful, PayloadsHeld, PayloadPresent, PayloadMatches;
    forall i | 0 <= i < |a.objects| ensures PayloadPresent(objects, a.objects[i]) && PayloadMatches(c, objects, a.objects[i]) {
      assert IsRecordOf(c, source, s, a.objects[i]);
      RecordYieldsBytes(c, source, s, objects, a.objects, i);
    }
  }

  lemma FunctionsRoundTrip(d: Durable, from: string, fs: seq<BackupFunction>, u: Service, to: string)
    requires FunctionsListed(d, from, fs) && NoFunctions(u.durable, to) && RestoreAll(u, to, Ops(fs)).Ok?
    requires PointersListed(d, from) && forall i :: 0 <= i < |fs| ==> ValidFunction(fs[i])
    ensures SameFunctions(d, from, RestoreAll(u, to, Ops(fs)).value.durable, to)
  {
    hide FunctionsListed, NoFunctions, PointersListed, RestoreAll, Ops, ValidFunction;
    var d' := RestoreAll(u, to, Ops(fs)).value.durable;
    forall f: string ensures PointerOf(d'.pointers, to, f) == PointerOf(d.pointers, from, f) {
      PointerRoundTrip(d, from, fs, u, to, f);
    }
    forall f: string, k: string ensures RecordOf(d'.revisions, to, f, k) == Moved(RecordOf(d.revisions, from, f, k), to, f) {
      RecordRoundTrip(d, from, fs, u, to, f, k);
    }
  }

  lemma SuccessWritesAll(c: Codec, v: World, t: Scope, a: Archive, overwriteKv: bool)
    requires Imported(c, v, t, a, overwriteKv).1.None?
    ensures RestoreAll(v.service, t.projectId, Ops(a.functions)).Ok?
    ensures Imported(c, v, t, a, overwriteKv).0 == World(RestoreAll(v.service, t.projectId, Ops(a.functions)).value,
              Written(v.kv, KvPairs(t, a.kv)), Written(v.objects, ObjectPairs(c, v.objects, t, a.objects)))
  {
    hide Precheck, RestoreAll, Ops, Written, KvPairs, ObjectPairs;
    assert a.kv[..|a.kv|] == a.kv && a.objects[..|a.objects|] == a.objects;
  }

  // ---------------------------------------------------------------- when the hypotheses hold

  /** Equal hashes of two stores' contents mean equal contents. */
  predicate HashesTellApart(c: Codec, a: map<string, Bytes>, b: map<string, Bytes>) {
    forall k, k' :: k in a && k' in b && c.sha256(a[k]) == c.sha256(b[k']) ==> a[k] == b[k']
  }

  /** After an export the same object store holds every large payload. */
  lemma ExportLeavesPayloads(c: Codec, w: World, s: Scope, a: Archive, after: map<string, Bytes>, key: string)
    requires IsAssembled(c, w, s, a) && ExportWrote(c, w.objects, after, a, key) && !IsCasOf(a.objects, key)
    requires HashesTellApart(c, w.objects, after)
    ensures PayloadsHeld(w.objects, s, after, a.objects)
  {
    var mid :| PayloadsStored(c, w.objects, mid, a.objects) && after == mid[key := c.serialize(a)];
    forall i | 0 <= i < |a.objects| && a.objects[i].dataBase64.None?
      ensures Lookup(after, CasKey(a.objects[i].sha256)) == Lookup(w.objects, ScopedObject(s, a.objects[i]))
    {
      assert StoresHash(c, mid, a.objects[i].sha256) && IsRecordOf(c, w.objects, s, a.objects[i]);
      assert CasKey(a.objects[i].sha256) != key;
    }
  }

  lemma DefaultKeyIsNoPayload(os: seq<ObjectRecord>, backupId: string)
    ensures !IsCasOf(os, ArchiveKey(None, backupId))
  {
    assert ArchiveKey(None, backupId)[0] == 'b' && forall s: string :: CasKey(s)[0] == 'a';
  }

  lemma {:induction false} TrimKeepsSlash(s: string)
    requires '/' in s
    ensures '/' in Trim(s)
    decreases |s|
  {
    if IsSpace(s[|s| - 1]) {
      assert s == s[..|s| - 1] + [s[|s| - 1]];
      TrimKeepsSlash(s[..|s| - 1]);
    } else {
      TrimStartKeepsSlash(s);
    }
  }

  lemma {:induction false} TrimStartKeepsSlash(s: string)
    requires '/' in s
    ensures '/' in TrimStart(s)
  {
    if IsSpace(s[0]) {
      assert s == [s[0]] + s[1..];
      TrimStartKeepsSlash(s[1..]);
    }
  }

  predicate EntrySlashFree(e: KvEntry) { '/' !in e.namespace && SlashFree(e.key) }

  /** Without slashes in segments, different keys never join to one text. */
  lemma SlashFreeIsJoinedApart(kv: map<Key, Json>, s: Scope, t: Scope, es: seq<KvEntry>)
    requires KvListed(kv, s, es, KvUnder(kv, s)) && ValidIdentifier(t.orgId) && ValidIdentifier(t.projectId)
    requires forall i :: 0 <= i < |es| ==> EntrySlashFree(es[i])
    ensures JoinedApart(t, es)
  {
    if '/' in t.orgId { TrimKeepsSlash(t.orgId); }
    if '/' in t.projectId { TrimKeepsSlash(t.projectId); }
    hide ValidIdentifier, Trim, Join, ScopedKey, EntrySlashFree;
    forall i, j | 0 <= i < j < |es| ensures Join(ScopedKey(t, es[i])) != Join(ScopedKey(t, es[j])) {
      SlashFreeEntriesApart(s, t, es[i], es[j]);
    }
  }

  lemma SlashFreeEntriesApart(s: Scope, t: Scope, a: KvEntry, b: KvEntry)
    requires EntrySlashFree(a) && EntrySlashFree(b) && '/' !in t.orgId && '/' !in t.projectId && ScopedKey(s, a) != ScopedKey(s, b)
    ensures Join(ScopedKey(t, a)) != Join(ScopedKey(t, b))
  {
    hide Join;
    SlashFreeJoinDecides(ScopedKey(t, a), ScopedKey(t, b));
    Rescoped(s, t, a);
    Rescoped(s, t, b);
  }

  /** With a slash inside a segment two keys can join to one text, and their export is then
      refused by every import without overwrite. */
  lemma SlashInSegmentBlocksImport(kv: map<Key, Json>, s: Scope, a: Archive, namespace: string, x: string, y: string, w: World, t: Scope)
    requires Archives(kv, s, a.kv)
    requires [s.orgId, s.projectId, namespace] + [x + "/" + y] in kv && [s.orgId, s.projectId, namespace] + [x, y] in kv
    ensures Precheck(w, t, a, false).Some?
  {
    hide Precheck, Join, JoinBy, ScopedKey, Archives;
    var i := EntryListed(kv, s, t, a.kv, namespace, [x + "/" + y]);
    var j := EntryListed(kv, s, t, a.kv, namespace, [x, y]);
    AlikeIsRefused(w, t, a, namespace, x, y, i, j);
  }

  lemma AlikeIsRefused(w: World, t: Scope, a: Archive, namespace: string, x: string, y: string, i: nat, j: nat)
    requires i < |a.kv| && ScopedKey(t, a.kv[i]) == [t.orgId, t.projectId, namespace] + [x + "/" + y]
    requires j < |a.kv| && ScopedKey(t, a.kv[j]) == [t.orgId, t.projectId, namespace] + [x, y]
    ensures Precheck(w, t, a, false).Some?
  {
    hide Precheck, Join, JoinBy, ScopedKey;
    JoinedAlike(t, namespace, x, y);
    assert |ScopedKey(t, a.kv[i])| == 4 && |ScopedKey(t, a.kv[j])| == 5;
    if i < j { RepeatIsRefused(w, t, a, i, j); } else { RepeatIsRefused(w, t, a, j, i); }
  }

  lemma EntryListed(kv: map<Key, Json>, s: Scope, t: Scope, es: seq<KvEntry>, namespace: string, key: Key) returns (i: nat)
    requires Archives(kv, s, es) && key != [] && [s.orgId, s.projectId, namespace] + key in kv
    ensures i < |es| && ScopedKey(t, es[i]) == [t.orgId, t.projectId, namespace] + key
  {
    var from: seq<Key> :| IsSource(kv, es, from, KvSelected(kv, s));
    var k := [s.orgId, s.projectId] + ([namespace] + key);
    assert k == [s.orgId, s.projectId, namespace] + key;
    OwnIsSelected(kv, s);
    hide Listed, EntryFrom, IsSource, ScopedKey, KvSelected, Archives;
    assert k in KvUnder(kv, s);
    i := SourceOf(kv, es, from, KvSelected(kv, s), k);
    EntryOfOwn(kv, t, k);
    TailOf(s, t, namespace, key);
  }

  lemma TailOf(s: Scope, t: Scope, namespace: string, key: Key)
    ensures ([s.orgId, s.projectId, namespace] + key)[2..] == [namespace] + key
    ensures [t.orgId, t.projectId] + ([namespace] + key) == [t.orgId, t.projectId, namespace] + key
  {
  }

  lemma RepeatIsRefused(w: World, t: Scope, a: Archive, i: nat, j: nat)
    requires i < j < |a.kv| && Join(ScopedKey(t, a.kv[i])) == Join(ScopedKey(t, a.kv[j]))
    ensures Precheck(w, t, a, false).Some?
  {
    hide ValidIdentifier, ValidArchive, AllSafe, AllPresent, NoConflicts, Ops, KeyFits, Join, ScopedKey;
    assert GateEntry(w.kv, t, a.kv, j).Some?;
  }

  lemma JoinedAlike(t: Scope, namespace: string, x: string, y: string)
    ensures Join([t.orgId, t.projectId, namespace] + [x + "/" + y]) == Join([t.orgId, t.projectId, namespace] + [x, y])
  {
    assert [x, y][1..] == [y] && JoinBy('/', [y]) == y && JoinBy('/', [x, y]) == x + ['/'] + y;
    assert JoinBy('/', [x + "/" + y]) == x + "/" + y;
    TailsJoinAlike([x + "/" + y], [x, y], namespace);
    assert [namespace] + [x + "/" + y] == [namespace, x + "/" + y] && [namespace] + [x, y] == [namespace, x, y];
    TailsJoinAlike([namespace, x + "/" + y], [namespace, x, y], t.projectId);
    assert [t.projectId] + [namespace, x + "/" + y] == [t.projectId, namespace, x + "/" + y] && [t.projectId] + [namespace, x, y] == [t.projectId, namespace, x, y];
    TailsJoinAlike([t.projectId, namespace, x + "/" + y], [t.projectId, namespace, x, y], t.orgId);
    assert [t.orgId, t.projectId, namespace] + [x + "/" + y] == [t.orgId] + [t.projectId, namespace, x + "/" + y];
    assert [t.orgId, t.projectId, namespace] + [x, y] == [t.orgId] + [t.projectId, namespace, x, y];
  }

  lemma TailsJoinAlike(a: Key, b: Key, head: string)
    requires a != [] && b != [] && Join(a) == Join(b)
    ensures Join([head] + a) == Join([head] + b)
  {
    assert ([head] + a)[1..] == a && ([head] + b)[1..] == b;
  }

  // ---------------------------------------------------------------- which keys a listing selects

  /** For names without wildcards and reserved characters, the listing selects only own keys
      exactly when no stored key lies under names that differ from them only in letter case. */
  lemma PlainScopeSelectsOnlyOwnIff(kv: map<Key, Json>, t: Scope)
    requires PlainName(t.orgId) && PlainName(t.projectId)
    ensures SelectsOnlyOwn(kv, t) <==>
      forall k :: k in kv && |k| >= 4 && SameFold(t.orgId, k[0]) && SameFold(t.projectId, k[1]) ==> [t.orgId, t.projectId] <= k
  {
    hide Listed, SameFold, PlainName;
    forall k: Key ensures Listed([t.orgId, t.projectId], k) <==> |k| >= 2 && SameFold(t.orgId, k[0]) && SameFold(t.projectId, k[1]) {
      assert PlainName(t.orgId);
      PlainListedIff(t.orgId, t.projectId, k);
    }
  }

  /** Exporting `my_app` also archives what `myxapp` and `MY_APP` store. */
  lemma UnderscoreArchivesAnotherProject(kv: map<Key, Json>, t: Scope, rest: Key)
    requires t == Scope("o", "my_app") && |rest| >= 2
    requires ["o", "myxapp"] + rest in kv || ["o", "MY_APP"] + rest in kv
    ensures !SelectsOnlyOwn(kv, t)
  {
    var other := if ["o", "myxapp"] + rest in kv then "myxapp" else "MY_APP";
    UnderscoreSelects("o", "my_app", other, rest);
    hide Listed;
    OtherIsForeign("o", "my_app", other, rest);
  }

  lemma OtherIsForeign(org: string, project: string, other: string, rest: Key)
    requires project != other
    ensures !([org, project] <= [org, other] + rest)
  {
    assert ([org, other] + rest)[1] == other;
  }

  // ---------------------------------------------------------------- pre-checks that are not enough

  /** Every text an archive would write under is harmless: namespaces, key segments, stores
      without a slash, and object keys that do not begin with one. */
  ghost predicate TextsHarmless(a: Archive) {
    (forall i :: 0 <= i < |a.kv| ==> Harmless(a.kv[i].namespace))
    && (forall i, j :: 0 <= i < |a.kv| && 0 <= j < |a.kv[i].key| ==> Harmless(a.kv[i].key[j]))
    && forall i :: 0 <= i < |a.objects| ==>
      Harmless(a.objects[i].store) && '/' !in a.objects[i].store && Harmless(a.objects[i].key) && (a.objects[i].key != "" ==> a.objects[i].key[0] != '/')
  }

  lemma SafeEntryIff(e: KvEntry)
    ensures SafeEntry(e) <==> Harmless(e.namespace) && forall j :: 0 <= j < |e.key| ==> Harmless(e.key[j])
  {
    hide HasPathTraversal, Harmless;
    TraversalIff(e.namespace);
    forall j | 0 <= j < |e.key| ensures HasPathTraversal(e.key[j]) <==> !Harmless(e.key[j]) { TraversalIff(e.key[j]); }
  }

  lemma SafeObjectIff(o: ObjectRecord)
    ensures SafeObject(o) <==> Harmless(o.store) && '/' !in o.store && Harmless(o.key) && (o.key != "" ==> o.key[0] != '/')
  {
    TraversalIff(o.store);
    TraversalIff(o.key);
    hide HasPathTraversal;
  }

  lemma AllSafeIff(a: Archive)
    ensures AllSafe(a) <==> TextsHarmless(a)
  {
    hide SafeEntry, SafeObject, Harmless;
    forall i | 0 <= i < |a.kv| ensures SafeEntry(a.kv[i]) <==> Harmless(a.kv[i].namespace) && forall j :: 0 <= j < |a.kv[i].key| ==> Harmless(a.kv[i].key[j]) {
      SafeEntryIff(a.kv[i]);
    }
    forall i | 0 <= i < |a.objects|
      ensures SafeObject(a.objects[i]) <==>
        Harmless(a.objects[i].store) && '/' !in a.objects[i].store && Harmless(a.objects[i].key) && (a.objects[i].key != "" ==> a.objects[i].key[0] != '/')
    {
      SafeObjectIff(a.objects[i]);
    }
  }

  /** An import passes its pre-checks exactly when both scopes are named well, the archive fits
      its schema, every text in it is harmless, its payloads are at hand, no revision conflicts,
      and without overwrite the gate lets every entry pass. */
  lemma PrecheckPassesIff(w: World, t: Scope, a: Archive, overwriteKv: bool)
    ensures Precheck(w, t, a, overwriteKv).None? <==>
      ValidIdentifier(t.orgId) && ValidIdentifier(t.projectId) && ValidIdentifier(a.orgId) && ValidIdentifier(a.projectId)
      && ValidArchive(a) && TextsHarmless(a)
      && (forall i :: 0 <= i < |a.objects| && a.objects[i].dataBase64.None? ==> "artifacts/" + a.objects[i].sha256 in w.objects)
      && NoConflicts(w.service.durable, t.projectId, Ops(a.functions))
      && (overwriteKv || forall i :: 0 <= i < |a.kv| ==> GateEntry(w.kv, t, a.kv, i).None?)
  {
    AllSafeIff(a);
    hide ValidIdentifier, ValidArchive, AllSafe, TextsHarmless, NoConflicts, Ops, GateEntry;
  }

  /** An archive with a text that leads upwards is refused and nothing is written. */
  lemma TraversalIsRefused(c: Codec, w: World, t: Scope, a: Archive, overwriteKv: bool, i: nat)
    requires i < |a.objects| && a.objects[i].key == "../secret"
    ensures Imported(c, w, t, a, overwriteKv).1.Some? && Imported(c, w, t, a, overwriteKv).0 == w
  {
    assert DotsAt(a.objects[i].key, 0);
    assert !Harmless(a.objects[i].key);
    hide Harmless, RestorePhase, Precheck;
    PrecheckPassesIff(w, t, a, overwriteKv);
  }

  const PLAIN: Scope := Scope("o", "p")
  const SHORT: KvEntry := KvEntry("n", ["k"], Json("1"))
  const OVERSIZED: KvEntry := KvEntry("n", seq(40, _ => "k"), Json("2"))
  const HALF_GOOD: Archive := Archive("bak_" + seq(26, _ => '0'), "o", "p", "p", [], [SHORT, OVERSIZED], [])

  /** With overwrite the key limits are met only while writing: this archive passes every
      pre-check, and the import throws after its first key is stored. */
  lemma OverwriteStopsHalfway(c: Codec, w: World)
    requires w.kv == map[]
    ensures Precheck(w, PLAIN, HALF_GOOD, true).None?
    ensures Imported(c, w, PLAIN, HALF_GOOD, true).1 == Some(Invalid) && Imported(c, w, PLAIN, HALF_GOOD, true).0.kv != w.kv
  {
    HalfGoodPasses(w);
    HalfGoodStops();
    hide Precheck, Written, KeyFits;
    assert HALF_GOOD.kv[..1] == [SHORT];
    WrittenHolds(w.kv, KvPairs(PLAIN, [SHORT]), 0);
    assert Ops(HALF_GOOD.functions) == [];
    assert RestoreAll(w.service, PLAIN.projectId, Ops(HALF_GOOD.functions)).Ok?;
    var w' := Imported(c, w, PLAIN, HALF_GOOD, true).0;
    assert w'.kv == Written(w.kv, KvPairs(PLAIN, [SHORT]));
    assert ScopedKey(PLAIN, SHORT) in w'.kv;
  }

  lemma HalfGoodPasses(w: World)
    ensures Precheck(w, PLAIN, HALF_GOOD, true).None?
  {
    PlainIsValid("o", 'o');
    PlainIsValid("p", 'p');
    PlainHasNoTraversal("n", 'n');
    PlainHasNoTraversal("k", 'k');
    hide ValidIdentifier, HasPathTraversal;
    assert HALF_GOOD.backupId[4..] == seq(26, _ => '0');
    assert ValidArchive(HALF_GOOD);
    assert AllSafe(HALF_GOOD);
  }

  lemma HalfGoodStops()
    ensures GoodKv(PLAIN, HALF_GOOD) == 1
  {
    ShortFits();
    assert ScopedKey(PLAIN, SHORT) == ["o", "p", "n", "k"];
    assert KeyFits(ScopedKey(PLAIN, HALF_GOOD.kv[0])) && !KeyFits(ScopedKey(PLAIN, HALF_GOOD.kv[1]));
  }

  lemma ShortFits()
    ensures KeyFits(["o", "p", "n", "k"])
  {
    var k := ["o", "p", "n", "k"];
    assert Utf8Length("o") == 1 && Utf8Length("p") == 1 && Utf8Length("n") == 1 && Utf8Length("k") == 1;
    assert k[1..] == ["p", "n", "k"] && k[1..][1..] == ["n", "k"] && k[1..][1..][1..] == ["k"] && k[1..][1..][1..][1..] == [];
  }

  lemma PlainHasNoTraversal(s: string, c: char)
    requires s == [c] && 'a' <= c <= 'z'
    ensures !HasPathTraversal(s)
  {
  }

  lemma PlainIsValid(s: string, c: char)
    requires s == [c] && 'a' <= c <= 'z'
    ensures ValidIdentifier(s)
  {
    assert Trim(s) == s;
    PlainHasNoTraversal(s, c);
  }

  /** A project whose only content is one object. */
  function OneObject(bytes: Bytes): World {
    World(Service(EMPTY, 0, false, false, 0), map[], map[ObjectKey("o", "p", "files", "k") := bytes])
  }

  /** Whether that project can be exported depends on the object having a byte. */
  lemma EmptyObjectBlocksExport(c: Codec, bytes: Bytes, a: Archive)
    requires Lawful(c) && IsAssembled(c, OneObject(bytes), PLAIN, a) && IsPrefixedUlid(a.backupId, "bak_")
    ensures ValidArchive(a) <==> bytes != []
  {
    ExportSucceedsIff(c, OneObject(bytes), PLAIN, a);
    OneObjectArchivable(bytes);
    hide *;
  }

  lemma OneObjectArchivable(bytes: Bytes)
    ensures Archivable(OneObject(bytes), PLAIN) <==> bytes != []
  {
    OneObjectFits(OneObject(bytes).objects, bytes);
    hide ObjectsArchivable, ObjectKey, Listed;
  }

  lemma OneObjectFits(objects: map<string, Bytes>, bytes: Bytes)
    requires objects == map[ObjectKey("o", "p", "files", "k") := bytes]
    ensures ObjectsArchivable(objects, PLAIN) <==> bytes != []
  {
    hide ObjectKey;
    forall store, key | '/' !in store && ObjectKey("o", "p", store, key) in objects ensures store == "files" && key == "k" {
      ObjectKeyIsInjective("o", "p", store, key, "files", "k");
    }
    assert ObjectKey("o", "p", "files", "k") in objects && '/' !in "files";
  }
}

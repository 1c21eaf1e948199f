/**
  Backup archives: their schema (packages/core/backup/archive-schema.ts) and what an
  import makes of one, as functions on the state of the three stores
  (apps/api/state-backup-service.ts).
*/
module BackupArchive {
  import opened Options
  import opened Ulid
  import opened Deployment
  import opened Stores
  import opened StoreKeys

  datatype BackupRevision = BackupRevision(id: string, artifactId: string, integrity: string, state: RevisionState, createdAt: int, manifest: string)

  datatype BackupFunction = BackupFunction(name: string, activeRevisionId: Option<string>, revisions: seq<BackupRevision>)

  datatype KvEntry = KvEntry(namespace: string, key: Key, value: Json)

  datatype ObjectRecord = ObjectRecord(store: string, key: string, sizeBytes: nat, sha256: string, integrity: string, dataBase64: Option<string>)

  datatype Archive = Archive(backupId: string, orgId: string, projectId: string, name: string,
                             functions: seq<BackupFunction>, kv: seq<KvEntry>, objects: seq<ObjectRecord>)

  /** The library calls: SHA-256 as hexadecimal and as an integrity text, base64, JSON. */
  datatype Codec = Codec(sha256: Bytes -> string, integrity: Bytes -> string, encode: Bytes -> string,
                         decode: string -> Option<Bytes>, serialize: Archive -> Bytes)

  /** A tenant's project: what an export reads and where an import puts things. */
  datatype Scope = Scope(orgId: string, projectId: string)

  datatype World = World(service: Service, kv: map<Key, Json>, objects: map<string, Bytes>)

  datatype BackupError = Invalid | Clash

  const MAX_INLINE_OBJECT_BYTES: nat := 262144

  // ---------------------------------------------------------------- schema

  predicate IsUlidText(s: string) { |s| == 26 && forall i :: 0 <= i < 26 ==> s[i] in ENCODING }

  predicate IsPrefixedUlid(id: string, prefix: string) { prefix <= id && IsUlidText(id[|prefix|..]) }

  predicate IsBase64Char(c: char) { 'A' <= c <= 'Z' || 'a' <= c <= 'z' || '0' <= c <= '9' || c == '+' || c == '/' || c == '=' }

  predicate IsBase64(s: string) { s != "" && forall i :: 0 <= i < |s| ==> IsBase64Char(s[i]) }

  predicate IsSha256Hex(s: string) { |s| == 64 && forall i :: 0 <= i < 64 ==> HexDigit(s[i]) }

  predicate IsIntegrity(s: string) { "sha256-" <= s && IsBase64(s[7..]) }

  predicate ValidRevision(r: BackupRevision) {
    IsPrefixedUlid(r.id, "rev_") && ValidArtifactId(r.artifactId) && IsIntegrity(r.integrity) && r.state in {Deployed, Failed, Ready}
  }

  predicate HoldsRevision(f: BackupFunction, id: string) { exists j :: 0 <= j < |f.revisions| && f.revisions[j].id == id }

  predicate ValidFunction(f: BackupFunction) {
    f.name != "" && (forall j :: 0 <= j < |f.revisions| ==> ValidRevision(f.revisions[j]))
    && (f.activeRevisionId.Some? ==> IsPrefixedUlid(f.activeRevisionId.value, "rev_") && HoldsRevision(f, f.activeRevisionId.value))
  }

  predicate ValidKvEntry(e: KvEntry) {
    e.namespace != "" && e.key != [] && forall j :: 0 <= j < |e.key| ==> e.key[j] != ""
  }

  predicate ValidObject(o: ObjectRecord) {
    o.store != "" && o.key != "" && IsSha256Hex(o.sha256) && IsIntegrity(o.integrity) && (o.dataBase64.Some? ==> IsBase64(o.dataBase64.value))
  }

  predicate ValidArchive(a: Archive) {
    IsPrefixedUlid(a.backupId, "bak_") && a.orgId != "" && a.projectId != "" && a.name != ""
    && (forall i :: 0 <= i < |a.functions| ==> ValidFunction(a.functions[i]))
    && (forall i :: 0 <= i < |a.kv| ==> ValidKvEntry(a.kv[i]))
    && (forall i :: 0 <= i < |a.objects| ==> ValidObject(a.objects[i]))
  }

  lemma PrefixedUlidIff(id: string, prefix: string)
    ensures IsPrefixedUlid(id, prefix) <==>
      exists u: string :: |u| == 26 && id == prefix + u && forall i :: 0 <= i < 26 ==> u[i] in "0123456789ABCDEFGHJKMNPQRSTVWXYZ"
  {
    if IsPrefixedUlid(id, prefix) { assert id == prefix + id[|prefix|..]; }
  }

  lemma Base64Iff(s: string)
    ensures IsBase64(s) <==> s != "" && forall i :: 0 <= i < |s| ==> s[i] in UPPER || s[i] in LOWER || s[i] in DIGITS || s[i] in "+/="
  {
    forall i | 0 <= i < |s| ensures IsBase64Char(s[i]) <==> s[i] in UPPER || s[i] in LOWER || s[i] in DIGITS || s[i] in "+/=" {
      Base64CharIff(s[i]);
    }
  }

  lemma Base64CharIff(c: char)
    ensures IsBase64Char(c) <==> c in UPPER || c in LOWER || c in DIGITS || c in "+/="
  {
    CharIsListed(c, 'A', UPPER);
    CharIsListed(c, 'a', LOWER);
    CharIsListed(c, '0', DIGITS);
  }

  lemma IntegrityIff(s: string)
    ensures IsIntegrity(s) <==> exists b: string :: s == "sha256-" + b && IsBase64(b)
  {
    hide IsBase64;
    if IsIntegrity(s) { assert s == "sha256-" + s[7..]; }
    if exists b: string :: s == "sha256-" + b && IsBase64(b) {
      var b: string :| s == "sha256-" + b && IsBase64(b);
      assert s[7..] == b;
    }
  }

  /** The schema, field by field. */
  lemma ValidArchiveIff(a: Archive)
    ensures ValidArchive(a) <==>
      IsPrefixedUlid(a.backupId, "bak_") && a.orgId != "" && a.projectId != "" && a.name != ""
      && (forall i :: 0 <= i < |a.functions| ==> a.functions[i].name != "")
      && (forall i, j :: 0 <= i < |a.functions| && 0 <= j < |a.functions[i].revisions| ==>
            var r := a.functions[i].revisions[j];
            IsPrefixedUlid(r.id, "rev_") && ValidArtifactId(r.artifactId) && IsIntegrity(r.integrity)
            && (r.state == Deployed || r.state == Failed || r.state == Ready))
      && (forall i :: 0 <= i < |a.functions| && a.functions[i].activeRevisionId.Some? ==>
            exists j :: 0 <= j < |a.functions[i].revisions| && a.functions[i].revisions[j].id == a.functions[i].activeRevisionId.value)
      && (forall i :: 0 <= i < |a.kv| ==> |a.kv[i].namespace| > 0 && |a.kv[i].key| > 0)
      && (forall i, j :: 0 <= i < |a.kv| && 0 <= j < |a.kv[i].key| ==> |a.kv[i].key[j]| > 0)
      && (forall i :: 0 <= i < |a.objects| ==>
            var o := a.objects[i];
            |o.store| > 0 && |o.key| > 0 && |o.sha256| == 64 && (forall j :: 0 <= j < 64 ==> o.sha256[j] in "0123456789abcdef")
            && IsIntegrity(o.integrity) && (o.dataBase64 == None || IsBase64(o.dataBase64.value)))
  {
    hide IsPrefixedUlid, ValidArtifactId, IsIntegrity, IsBase64;
    HexDigitIff();
    hide HexDigit;
    forall i | 0 <= i < |a.functions|
      ensures ValidFunction(a.functions[i]) <==> FunctionFits(a.functions[i])
    {
      ValidFunctionIff(a.functions[i]);
    }
    hide ValidFunction;
  }

  lemma HexDigitIff()
    ensures forall c: char :: HexDigit(c) <==> c in "0123456789abcdef"
  {
    forall c: char ensures HexDigit(c) <==> c in "0123456789abcdef" {
      CharIsListed(c, '0', DIGITS);
      CharIsListed(c, 'a', "abcdef");
      assert "0123456789abcdef" == DIGITS + "abcdef";
    }
  }

  predicate FunctionFits(f: BackupFunction) {
    f.name != ""
    && (forall j :: 0 <= j < |f.revisions| ==>
          var r := f.revisions[j];
          IsPrefixedUlid(r.id, "rev_") && ValidArtifactId(r.artifactId) && IsIntegrity(r.integrity)
          && (r.state == Deployed || r.state == Failed || r.state == Ready))
    && (f.activeRevisionId.Some? ==> exists j :: 0 <= j < |f.revisions| && f.revisions[j].id == f.activeRevisionId.value)
  }

  lemma ValidFunctionIff(f: BackupFunction)
    ensures ValidFunction(f) <==> FunctionFits(f)
  {
    hide IsPrefixedUlid, ValidArtifactId, IsIntegrity;
  }

  // ---------------------------------------------------------------- import pre-checks

  function ScopedKey(t: Scope, e: KvEntry): Key { [t.orgId, t.projectId, e.namespace] + e.key }

  function ScopedObject(t: Scope, o: ObjectRecord): string { ObjectKey(t.orgId, t.projectId, o.store, o.key) }

  predicate SafeEntry(e: KvEntry) {
    !HasPathTraversal(e.namespace) && forall j :: 0 <= j < |e.key| ==> !HasPathTraversal(e.key[j])
  }

  predicate SafeObject(o: ObjectRecord) {
    !HasPathTraversal(o.store) && '/' !in o.store && '\\' !in o.store
    && !HasPathTraversal(o.key) && !("/" <= o.key) && !("\\" <= o.key)
  }

  predicate PayloadPresent(objects: map<string, Bytes>, o: ObjectRecord) {
    o.dataBase64.Some? || CasKey(o.sha256) in objects
  }

  /** One revision to restore; an archive's functions in the order they are restored. */
  datatype RestoreOp = RestoreOp(fn: string, rev: BackupRevision, active: bool)

  function OpOf(f: BackupFunction, j: nat): RestoreOp
    requires j < |f.revisions|
  {
    RestoreOp(f.name, f.revisions[j], f.activeRevisionId == Some(f.revisions[j].id))
  }

  function OpsOf(f: BackupFunction): seq<RestoreOp> {
    seq(|f.revisions|, j requires 0 <= j < |f.revisions| => OpOf(f, j))
  }

  function Ops(fs: seq<BackupFunction>): seq<RestoreOp> {
    if fs == [] then [] else Ops(fs[..|fs| - 1]) + OpsOf(fs[|fs| - 1])
  }

  function RecordFor(project: string, op: RestoreOp): Revision {
    Revision(op.rev.id, project, op.fn, op.rev.artifactId, op.rev.integrity, op.rev.state, op.rev.createdAt, op.rev.manifest)
  }

  predicate ConflictsWith(d: Durable, project: string, op: RestoreOp) {
    RestoreConflicts(d, project, op.fn, RecordFor(project, op))
  }

  predicate NoConflicts(d: Durable, project: string, ops: seq<RestoreOp>) {
    forall i :: 0 <= i < |ops| ==> !ConflictsWith(d, project, ops[i])
  }

  /** The gate without overwrite on entry `i`: repeated joined key, key too long, key taken. */
  function GateEntry(kv: map<Key, Json>, t: Scope, es: seq<KvEntry>, i: nat): Option<BackupError>
    requires i < |es|
  {
    if exists j :: 0 <= j < i && Join(ScopedKey(t, es[j])) == Join(ScopedKey(t, es[i])) then Some(Clash)
    else if !KeyFits(ScopedKey(t, es[i])) then Some(Invalid)
    else if Lookup(kv, ScopedKey(t, es[i])).GetOr(Null) != Null then Some(Clash)
    else None
  }

  /** The first refusal of the gate. */
  function Gate(kv: map<Key, Json>, t: Scope, es: seq<KvEntry>, upTo: nat): (r: Option<BackupError>)
    requires upTo <= |es|
    ensures r.None? <==> forall i :: 0 <= i < upTo ==> GateEntry(kv, t, es, i).None?
  {
    if upTo == 0 then None
    else
      var before := Gate(kv, t, es, upTo - 1);
      if before.Some? then before else GateEntry(kv, t, es, upTo - 1)
  }

  predicate AllSafe(a: Archive) {
    (forall i :: 0 <= i < |a.kv| ==> SafeEntry(a.kv[i])) && forall i :: 0 <= i < |a.objects| ==> SafeObject(a.objects[i])
  }

  predicate AllPresent(objects: map<string, Bytes>, a: Archive) {
    forall i :: 0 <= i < |a.objects| ==> PayloadPresent(objects, a.objects[i])
  }

  /** The pre-checks, in order. */
  function Precheck(w: World, t: Scope, a: Archive, overwriteKv: bool): Option<BackupError> {
    if !ValidIdentifier(t.orgId) || !ValidIdentifier(t.projectId) then Some(Invalid)
    else if !ValidArchive(a) then Some(Invalid)
    else if !ValidIdentifier(a.orgId) || !ValidIdentifier(a.projectId) then Some(Invalid)
    else if !AllSafe(a) then Some(Invalid)
    else if !AllPresent(w.objects, a) then Some(Invalid)
    else if !NoConflicts(w.service.durable, t.projectId, Ops(a.functions)) then Some(Clash)
    else if !overwriteKv then Gate(w.kv, t, a.kv, |a.kv|)
    else None
  }

  // ---------------------------------------------------------------- restore phase

  /** Restoring revisions in order; `Err` holds the state in which a restore threw. */
  function RestoreAll(s: Service, project: string, ops: seq<RestoreOp>): Result<Service, Service>
    decreases |ops|
  {
    if ops == [] then Ok(s)
    else
      var op := ops[|ops| - 1];
      match RestoreAll(s, project, ops[..|ops| - 1])
      case Err(u) => Err(u)
      case Ok(u) => if ConflictsWith(u.durable, project, op) then Err(u) else Ok(Restored(u, project, op.fn, RecordFor(project, op), op.active))
  }

  /** The map after writing the pairs in order. */
  function Written<K, V>(m: map<K, V>, pairs: seq<(K, V)>): map<K, V>
    decreases |pairs|
  {
    if pairs == [] then m
    else
      var last := pairs[|pairs| - 1];
      Written(m, pairs[..|pairs| - 1])[last.0 := last.1]
  }

  /** How many elements come before the first that fails. */
  function GoodCount<E>(es: seq<E>, good: E -> bool): (n: nat)
    ensures n <= |es| && (n < |es| ==> !good(es[n])) && forall i :: 0 <= i < n ==> good(es[i])
    decreases |es|
  {
    if es == [] then 0
    else
      var n := GoodCount(es[..|es| - 1], good);
      if n < |es| - 1 then n else if good(es[n]) then n + 1 else n
  }

  function KvPairs(t: Scope, es: seq<KvEntry>): seq<(Key, Json)> {
    seq(|es|, i requires 0 <= i < |es| => (ScopedKey(t, es[i]), es[i].value))
  }

  /** The bytes an object record stands for. */
  function Payload(c: Codec, objects: map<string, Bytes>, o: ObjectRecord): Option<Bytes> {
    if o.dataBase64.Some? then c.decode(o.dataBase64.value) else Lookup(objects, CasKey(o.sha256))
  }

  predicate PayloadMatches(c: Codec, objects: map<string, Bytes>, o: ObjectRecord) {
    var payload := Payload(c, objects, o);
    payload.Some? && c.sha256(payload.value) == o.sha256
  }

  function ObjectPairs(c: Codec, objects: map<string, Bytes>, t: Scope, os: seq<ObjectRecord>): seq<(string, Bytes)> {
    seq(|os|, i requires 0 <= i < |os| => (ScopedObject(t, os[i]), Payload(c, objects, os[i]).GetOr([])))
  }

  function GoodKv(t: Scope, a: Archive): (n: nat)
    ensures n <= |a.kv|
  {
    GoodCount(a.kv, (e: KvEntry) => KeyFits(ScopedKey(t, e)))
  }

  function GoodObjects(c: Codec, objects: map<string, Bytes>, a: Archive): (n: nat)
    ensures n <= |a.objects|
  {
    GoodCount(a.objects, (o: ObjectRecord) => PayloadMatches(c, objects, o))
  }

  /** The restore phase: what is in the stores when it ends or throws. */
  function RestorePhase(c: Codec, w: World, t: Scope, a: Archive): (World, Option<BackupError>) {
    match RestoreAll(w.service, t.projectId, Ops(a.functions))
    case Err(s) => (w.(service := s), Some(Clash))
    case Ok(s) =>
      var n := GoodKv(t, a);
      var kv := Written(w.kv, KvPairs(t, a.kv[..n]));
      if n < |a.kv| then (World(s, kv, w.objects), Some(Invalid))
      else
        var k := GoodObjects(c, w.objects, a);
        (World(s, kv, Written(w.objects, ObjectPairs(c, w.objects, t, a.objects[..k]))), if k < |a.objects| then Some(Invalid) else None)
  }

  function Imported(c: Codec, w: World, t: Scope, a: Archive, overwriteKv: bool): (World, Option<BackupError>) {
    var refused := Precheck(w, t, a, overwriteKv);
    if refused.Some? then (w, refused) else RestorePhase(c, w, t, a)
  }

  // ---------------------------------------------------------------- writing pairs

  ghost predicate KeysApart<K, V>(pairs: seq<(K, V)>) { forall i, j :: 0 <= i < j < |pairs| ==> pairs[i].0 != pairs[j].0 }

  ghost predicate Writes<K, V>(pairs: seq<(K, V)>, k: K) { exists i :: 0 <= i < |pairs| && pairs[i].0 == k }

  lemma {:induction false} UnwrittenStays<K, V>(m: map<K, V>, pairs: seq<(K, V)>, k: K)
    requires !Writes(pairs, k)
    ensures Lookup(Written(m, pairs), k) == Lookup(m, k)
    decreases |pairs|
  {
    if pairs != [] {
      assert pairs[|pairs| - 1].0 != k;
      UnwrittenStays(m, pairs[..|pairs| - 1], k);
    }
  }

  lemma {:induction false} WrittenHolds<K, V>(m: map<K, V>, pairs: seq<(K, V)>, i: nat)
    requires i < |pairs| && KeysApart(pairs)
    ensures Lookup(Written(m, pairs), pairs[i].0) == Some(pairs[i].1)
    decreases |pairs|
  {
    if i < |pairs| - 1 {
      assert pairs[..|pairs| - 1][i] == pairs[i];
      WrittenHolds(m, pairs[..|pairs| - 1], i);
    }
  }
}

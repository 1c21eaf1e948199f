/**
  The persist chain of the deployment service (apps/api/deployment-service.ts):
  the serialized form of its state, hydration, and coalesced snapshot writes.
*/
module Persistence {
  import opened Options
  import opened Deployment

  // ---------------------------------------------------------------- the serialized form

  /** Maps are written as arrays of entries, records without their keys. */
  datatype Snapshot = Snapshot(
    revisions: seq<(string, seq<(string, seq<Revision>)>)>,
    pointers: seq<(string, seq<(string, string)>)>,
    routes: seq<(string, seq<RouteDecl>)>,
    metadata: seq<(string, Metadata)>)

  /** `entries` lists every key of `m` once, in any order, each with a form of its value. */
  ghost predicate Lists<A, B>(entries: seq<(string, A)>, m: map<string, B>, form: (A, B) -> bool) {
    && (forall i :: 0 <= i < |entries| ==> entries[i].0 in m && form(entries[i].1, m[entries[i].0]))
    && (forall i, j :: 0 <= i < j < |entries| ==> entries[i].0 != entries[j].0)
    && (forall k :: k in m ==> exists i :: 0 <= i < |entries| && entries[i].0 == k)
  }

  /** The values of `m`, each key's once, in any order. */
  ghost predicate ListsValues(values: seq<Revision>, m: map<string, Revision>) {
    exists keys: seq<string> :: IsKeyListOf(keys, values, m)
  }

  ghost predicate IsKeyListOf(keys: seq<string>, values: seq<Revision>, m: map<string, Revision>) {
    && |keys| == |values|
    && (forall i :: 0 <= i < |keys| ==> keys[i] in m && m[keys[i]] == values[i])
    && (forall i, j :: 0 <= i < j < |keys| ==> keys[i] != keys[j])
    && (forall k :: k in m ==> k in keys)
  }

  ghost predicate ListsFunctions(entries: seq<(string, seq<Revision>)>, m: map<string, map<string, Revision>>) {
    Lists(entries, m, (vs, revMap) => ListsValues(vs, revMap))
  }

  ghost predicate ListsPairs<V>(entries: seq<(string, V)>, m: map<string, V>) {
    Lists(entries, m, (a, b) => a == b)
  }

  /** `snap` is a serialization of `d`, whatever order its maps are enumerated in. */
  ghost predicate Serializes(snap: Snapshot, d: Durable) {
    && Lists(snap.revisions, d.revisions, (es, fnMap) => ListsFunctions(es, fnMap))
    && Lists(snap.pointers, d.pointers, (es, fnMap) => ListsPairs(es, fnMap))
    && ListsPairs(snap.routes, d.routes)
    && ListsPairs(snap.metadata, d.metadata)
  }

  // ---------------------------------------------------------------- hydration

  /** A map filled entry by entry, later entries winning. */
  function MapOf<A, B>(entries: seq<(string, A)>, f: A -> B): map<string, B> {
    if entries == [] then map[]
    else var n := |entries| - 1; MapOf(entries[..n], f)[entries[n].0 := f(entries[n].1)]
  }

  function ById(records: seq<Revision>): map<string, Revision> {
    if records == [] then map[]
    else var n := |records| - 1; ById(records[..n])[records[n].id := records[n]]
  }

  function FunctionsOf(entries: seq<(string, seq<Revision>)>): map<string, map<string, Revision>> {
    MapOf(entries, rs => ById(rs))
  }

  function PairsOf<V>(entries: seq<(string, V)>): map<string, V> { MapOf(entries, v => v) }

  function Hydrated(snap: Snapshot): Durable {
    Durable(MapOf(snap.revisions, es => FunctionsOf(es)), MapOf(snap.pointers, es => PairsOf(es)),
            PairsOf(snap.routes), PairsOf(snap.metadata))
  }

  /** The entry at which reading a parsed file breaks off, if it does. */
  datatype Break = Nowhere | InRevisions(n: nat) | InPointers(n: nat) | InRoutes(n: nat) | InMetadata(n: nat)

  /** A state file: absent, empty or not JSON, or read up to a break. */
  datatype File = Unreadable | Parsed(snap: Snapshot, breaks: Break)

  predicate BreaksInside(file: File) {
    match file
    case Unreadable => true
    case Parsed(snap, breaks) =>
      match breaks
      case Nowhere => true
      case InRevisions(n) => n <= |snap.revisions|
      case InPointers(n) => n <= |snap.pointers|
      case InRoutes(n) => n <= |snap.routes|
      case InMetadata(n) => n <= |snap.metadata|
  }

  /** What was read before the break; the sections are read in this order. */
  function ReadPart(snap: Snapshot, breaks: Break): Snapshot
    requires BreaksInside(Parsed(snap, breaks))
  {
    match breaks
    case Nowhere => snap
    case InRevisions(n) => Snapshot(snap.revisions[..n], [], [], [])
    case InPointers(n) => Snapshot(snap.revisions, snap.pointers[..n], [], [])
    case InRoutes(n) => Snapshot(snap.revisions, snap.pointers, snap.routes[..n], [])
    case InMetadata(n) => Snapshot(snap.revisions, snap.pointers, snap.routes, snap.metadata[..n])
  }

  /** The error that ends a broken read is swallowed and what was read stays. */
  method Hydrate(file: File) returns (d: Durable)
    requires BreaksInside(file)
    ensures d == match file case Unreadable => EMPTY case Parsed(snap, breaks) => Hydrated(ReadPart(snap, breaks))
  {
    d := EMPTY;
    if file.Unreadable? { return; }
    var snap, breaks := file.snap, file.breaks;
    var n := if breaks.InRevisions? then breaks.n else |snap.revisions|;
    var records := HydrateRevisions(snap.revisions[..n]);
    d := d.(revisions := records);
    if breaks.InRevisions? { return; }
    assert snap.revisions[..n] == snap.revisions;
    n := if breaks.InPointers? then breaks.n else |snap.pointers|;
    var pointers: Pointers := map[];
    for i := 0 to n
      invariant pointers == MapOf(snap.pointers[..i], es => PairsOf(es))
    {
      assert snap.pointers[..i + 1][..i] == snap.pointers[..i];
      pointers := pointers[snap.pointers[i].0 := PairsOf(snap.pointers[i].1)];
    }
    d := d.(pointers := pointers);
    if breaks.InPointers? { return; }
    assert snap.pointers[..n] == snap.pointers;
    n := if breaks.InRoutes? then breaks.n else |snap.routes|;
    d := d.(routes := PairsOf(snap.routes[..n]));
    if breaks.InRoutes? { return; }
    assert snap.routes[..n] == snap.routes;
    n := if breaks.InMetadata? then breaks.n else |snap.metadata|;
    d := d.(metadata := PairsOf(snap.metadata[..n]));
    assert breaks.Nowhere? ==> snap.metadata[..n] == snap.metadata;
  }

  method HydrateRevisions(entries: seq<(string, seq<(string, seq<Revision>)>)>) returns (rs: Records)
    ensures rs == MapOf(entries, es => FunctionsOf(es))
  {
    rs := map[];
    for i := 0 to |entries|
      invariant rs == MapOf(entries[..i], es => FunctionsOf(es))
    {
      var project, fnMap := entries[i].0, entries[i].1;
      var outer: map<string, map<string, Revision>> := map[];
      for j := 0 to |fnMap|
        invariant outer == FunctionsOf(fnMap[..j])
      {
        var fn, records := fnMap[j].0, fnMap[j].1;
        var byId: map<string, Revision> := map[];
        for k := 0 to |records|
          invariant byId == ById(records[..k])
        {
          assert records[..k + 1][..k] == records[..k];
          byId := byId[records[k].id := records[k]];
        }
        assert records[..|records|] == records && fnMap[..j + 1][..j] == fnMap[..j];
        outer := outer[fn := byId];
      }
      assert fnMap[..|fnMap|] == fnMap && entries[..i + 1][..i] == entries[..i];
      rs := rs[project := outer];
    }
    assert entries[..|entries|] == entries;
  }

  lemma EmptyIfNothingRead<A, B>(entries: seq<(string, A)>, f: A -> B)
    ensures MapOf(entries, f) == map[] <==> entries == []
  {
    if entries != [] { assert entries[|entries| - 1].0 in MapOf(entries, f); }
  }

  lemma NoPairsRead<V>(entries: seq<(string, V)>)
    ensures PairsOf(entries) == map[] <==> entries == []
  {
    EmptyIfNothingRead(entries, v => v);
  }

  predicate NothingBefore(snap: Snapshot, breaks: Break) {
    match breaks
    case Nowhere => false
    case InRevisions(n) => n == 0
    case InPointers(n) => snap.revisions == [] && n == 0
    case InRoutes(n) => snap.revisions == [] && snap.pointers == [] && n == 0
    case InMetadata(n) => snap.revisions == [] && snap.pointers == [] && snap.routes == [] && n == 0
  }

  /** A broken file starts the service empty exactly when it breaks before its first entry.
      Otherwise what stands before the break is kept: no pointer without all the records. */
  lemma BrokenFileIsEmptyIff(snap: Snapshot, breaks: Break)
    requires BreaksInside(Parsed(snap, breaks)) && !breaks.Nowhere?
    ensures var d := Hydrated(ReadPart(snap, breaks));
      (d == EMPTY <==> NothingBefore(snap, breaks)) && (d.pointers != map[] ==> d.revisions == Hydrated(snap).revisions)
  {
    var part := ReadPart(snap, breaks);
    EmptyIfNothingRead(part.revisions, es => FunctionsOf(es));
    EmptyIfNothingRead(part.pointers, es => PairsOf(es));
    NoPairsRead(part.routes);
    NoPairsRead(part.metadata);
    assert Hydrated(part) == EMPTY <==> part == Snapshot([], [], [], []);
  }

  /** For instance a file with one revision whose pointers are malformed. */
  lemma BrokenPointersKeepRecords(rev: Revision, pointers: seq<(string, seq<(string, string)>)>)
    ensures var d := Hydrated(ReadPart(Snapshot([("p", [("f", [rev])])], pointers, [], []), InPointers(0)));
      RecordOf(d.revisions, "p", "f", rev.id) == Some(rev) && d.pointers == map[]
  {
    var functions := [("f", [rev])];
    var entries := [("p", functions)];
    assert [rev][..0] == [] && functions[..0] == [] && entries[..0] == [];
    OneEntry(functions, rs => ById(rs));
    OneEntry(entries, es => FunctionsOf(es));
    assert ById([rev]) == map[rev.id := rev];
  }

  lemma OneEntry<A, B>(entries: seq<(string, A)>, f: A -> B)
    requires |entries| == 1
    ensures MapOf(entries, f) == map[entries[0].0 := f(entries[0].1)]
  {
    assert entries[..0] == [];
  }

  lemma {:induction false} MapOfEntries<A, B>(entries: seq<(string, A)>, f: A -> B)
    requires forall i, j :: 0 <= i < j < |entries| ==> entries[i].0 != entries[j].0
    ensures forall i :: 0 <= i < |entries| ==> entries[i].0 in MapOf(entries, f) && MapOf(entries, f)[entries[i].0] == f(entries[i].1)
    ensures forall k :: k in MapOf(entries, f) ==> exists i :: 0 <= i < |entries| && entries[i].0 == k
  {
    if entries != [] {
      var n := |entries| - 1;
      MapOfEntries(entries[..n], f);
      forall k | k in MapOf(entries, f) ensures exists i :: 0 <= i < |entries| && entries[i].0 == k {
        if k != entries[n].0 {
          var i :| 0 <= i < n && entries[..n][i].0 == k;
          assert entries[i].0 == k;
        }
      }
    }
  }

  /** Reading back a listing gives the map exactly when every entry reads back. */
  lemma ReadsBackIff<A, B>(entries: seq<(string, A)>, m: map<string, B>, form: (A, B) -> bool, f: A -> B)
    requires Lists(entries, m, form)
    ensures MapOf(entries, f) == m <==> forall i :: 0 <= i < |entries| ==> f(entries[i].1) == m[entries[i].0]
  {
    MapOfEntries(entries, f);
    var r := MapOf(entries, f);
    if forall i :: 0 <= i < |entries| ==> f(entries[i].1) == m[entries[i].0] {
      forall k ensures (k in r <==> k in m) && (k in m ==> r[k] == m[k]) {
        if k in m {
          var i :| 0 <= i < |entries| && entries[i].0 == k;
        }
      }
      assert r == m;
    }
  }

  lemma PairsReadBack<V>(entries: seq<(string, V)>, m: map<string, V>)
    requires ListsPairs(entries, m)
    ensures PairsOf(entries) == m
  {
    ReadsBackIff(entries, m, (a, b) => a == b, v => v);
  }

  ghost predicate KeyedById(m: map<string, Revision>) { forall k :: k in m ==> m[k].id == k }

  lemma {:induction false} ByIdHolds(records: seq<Revision>)
    ensures forall k :: k in ById(records) ==> ById(records)[k].id == k && ById(records)[k] in records
    ensures forall i :: 0 <= i < |records| ==> records[i].id in ById(records)
  {
    if records != [] { ByIdHolds(records[..|records| - 1]); }
  }

  lemma {:induction false} ByIdFindsLast(records: seq<Revision>, i: nat)
    requires i < |records| && forall j :: i < j < |records| ==> records[j].id != records[i].id
    ensures records[i].id in ById(records) && ById(records)[records[i].id] == records[i]
    decreases |records|
  {
    var n := |records| - 1;
    if i < n {
      assert records[..n][i] == records[i];
      ByIdFindsLast(records[..n], i);
    }
  }

  lemma KeyedRecordsReadBack(records: seq<Revision>, keys: seq<string>, m: map<string, Revision>)
    requires KeyedById(m) && IsKeyListOf(keys, records, m)
    ensures ById(records) == m
  {
    ByIdHolds(records);
    forall k | k in m ensures k in ById(records) && ById(records)[k] == m[k] {
      var i :| 0 <= i < |keys| && keys[i] == k;
      forall j | i < j < |records| ensures records[j].id != records[i].id {
        assert records[j].id == keys[j];
      }
      ByIdFindsLast(records, i);
    }
    forall k | k in ById(records) ensures k in m {
      var i :| 0 <= i < |records| && records[i] == ById(records)[k];
      assert records[i].id == keys[i];
    }
  }

  /** Records come back under their keys exactly when the keys are their identifiers. */
  lemma RecordsReadBackIff(records: seq<Revision>, m: map<string, Revision>)
    requires ListsValues(records, m)
    ensures ById(records) == m <==> KeyedById(m)
  {
    ByIdHolds(records);
    if KeyedById(m) {
      var keys: seq<string> :| IsKeyListOf(keys, records, m);
      KeyedRecordsReadBack(records, keys, m);
    }
  }

  ghost predicate AllKeyedById(rs: Records) {
    forall p, f :: p in rs && f in rs[p] ==> KeyedById(rs[p][f])
  }

  lemma FunctionsReadBackIff(entries: seq<(string, seq<Revision>)>, m: map<string, map<string, Revision>>)
    requires ListsFunctions(entries, m)
    ensures FunctionsOf(entries) == m <==> forall f :: f in m ==> KeyedById(m[f])
  {
    ReadsBackIff(entries, m, (vs, revMap) => ListsValues(vs, revMap), rs => ById(rs));
    forall i | 0 <= i < |entries|
      ensures ById(entries[i].1) == m[entries[i].0] <==> KeyedById(m[entries[i].0])
    {
      RecordsReadBackIff(entries[i].1, m[entries[i].0]);
    }
    if forall i :: 0 <= i < |entries| ==> KeyedById(m[entries[i].0]) {
      forall f | f in m ensures KeyedById(m[f]) {
        var i :| 0 <= i < |entries| && entries[i].0 == f;
      }
    }
  }

  lemma RevisionsReadBackIff(entries: seq<(string, seq<(string, seq<Revision>)>)>, rs: Records)
    requires Lists(entries, rs, (es, fnMap) => ListsFunctions(es, fnMap))
    ensures MapOf(entries, es => FunctionsOf(es)) == rs <==> AllKeyedById(rs)
  {
    ReadsBackIff(entries, rs, (es, fnMap) => ListsFunctions(es, fnMap), es => FunctionsOf(es));
    forall i | 0 <= i < |entries|
      ensures FunctionsOf(entries[i].1) == rs[entries[i].0] <==> forall f :: f in rs[entries[i].0] ==> KeyedById(rs[entries[i].0][f])
    {
      FunctionsReadBackIff(entries[i].1, rs[entries[i].0]);
    }
    if forall i :: 0 <= i < |entries| ==> FunctionsOf(entries[i].1) == rs[entries[i].0] {
      forall p, f | p in rs && f in rs[p] ensures KeyedById(rs[p][f]) {
        var i :| 0 <= i < |entries| && entries[i].0 == p;
        assert FunctionsOf(entries[i].1) == rs[p];
      }
    }
  }

  lemma PointersReadBack(entries: seq<(string, seq<(string, string)>)>, ps: Pointers)
    requires Lists(entries, ps, (es, fnMap) => ListsPairs(es, fnMap))
    ensures MapOf(entries, es => PairsOf(es)) == ps
  {
    ReadsBackIff(entries, ps, (es, fnMap) => ListsPairs(es, fnMap), es => PairsOf(es));
    forall i | 0 <= i < |entries| ensures PairsOf(entries[i].1) == ps[entries[i].0] {
      PairsReadBack(entries[i].1, ps[entries[i].0]);
    }
  }

  /** Hydrating any serialization rebuilds the state exactly when every record is keyed by its own id. */
  lemma HydrationRestoresIff(snap: Snapshot, d: Durable)
    requires Serializes(snap, d)
    ensures Hydrated(snap) == d <==> AllKeyedById(d.revisions)
  {
    RevisionsReadBackIff(snap.revisions, d.revisions);
    PointersReadBack(snap.pointers, d.pointers);
    PairsReadBack(snap.routes, d.routes);
    PairsReadBack(snap.metadata, d.metadata);
  }

  lemma {:induction false} MapOfValues<A, B>(entries: seq<(string, A)>, f: A -> B, k: string)
    requires k in MapOf(entries, f)
    ensures exists i :: 0 <= i < |entries| && MapOf(entries, f)[k] == f(entries[i].1)
  {
    var n := |entries| - 1;
    if k != entries[n].0 {
      MapOfValues(entries[..n], f, k);
      var i :| 0 <= i < n && MapOf(entries[..n], f)[k] == f(entries[..n][i].1);
      assert MapOf(entries, f)[k] == f(entries[i].1);
    }
  }

  /** Whatever a file holds, what is hydrated from it is keyed by identifier. */
  lemma HydratedIsKeyed(snap: Snapshot)
    ensures AllKeyedById(Hydrated(snap).revisions)
  {
    var rs := Hydrated(snap).revisions;
    forall p, f | p in rs && f in rs[p] ensures KeyedById(rs[p][f]) {
      MapOfValues(snap.revisions, es => FunctionsOf(es), p);
      var i :| 0 <= i < |snap.revisions| && rs[p] == FunctionsOf(snap.revisions[i].1);
      MapOfValues(snap.revisions[i].1, vs => ById(vs), f);
      var j :| 0 <= j < |snap.revisions[i].1| && rs[p][f] == ById(snap.revisions[i].1[j].1);
      ByIdHolds(snap.revisions[i].1[j].1);
    }
  }

  // ---------------------------------------------------------------- the write chain

  /** A snapshot being written, taken after mutation number `at`. */
  datatype Write = Write(snap: Snapshot, at: nat)

  /** The service, the file, and what has happened so far: `versions` are the durable
      states before and after each of the `mutations`, `scheduledAt` the last that asked
      for a write.  A file that cannot be read counts as none. */
  datatype Chain = Chain(svc: Service, versions: seq<Durable>, mutations: seq<Mutation>, scheduledAt: nat,
                         writing: Option<Write>, disk: Option<Snapshot>, diskAt: nat, lastWriteFailed: bool)

  datatype Mutation =
    | FinishDeploy(rev: Revision, healthy: bool)
    | Rollback(project: string, fn: string, target: string)
    | Restore(project: string, fn: string, rev: Revision, isActive: bool)
    | Delete(project: string)
    | SetRoutes(project: string, routes: seq<RouteDecl>)
    | SetMetadata(project: string, meta: Metadata)

  function Mutated(s: Service, m: Mutation): Service {
    match m
    case FinishDeploy(rev, healthy) => DeployFinished(s, rev, healthy)
    case Rollback(project, fn, target) => RolledBack(s, project, fn, target)
    case Restore(project, fn, rev, isActive) => Restored(s, project, fn, rev, isActive)
    case Delete(project) => Deleted(s, project)
    case SetRoutes(project, routes) => Scheduled(s.(durable := s.durable.(routes := s.durable.routes[project := routes])))
    case SetMetadata(project, meta) => Scheduled(s.(durable := s.durable.(metadata := s.durable.metadata[project := meta])))
  }

  datatype Event =
    | Mutate(mutation: Mutation)
    | BeginWrite(snap: Snapshot)
    | EndWrite(ok: bool)

  /** Each chained write starts after the one before it ended. */
  ghost predicate Enabled(c: Chain, e: Event) {
    match e
    case Mutate(_) => true
    case BeginWrite(snap) => c.svc.pending > 0 && c.writing.None? && c.versions != [] && (c.svc.queued ==> Serializes(snap, c.svc.durable))
    case EndWrite(_) => c.writing.Some?
  }

  ghost function Apply(c: Chain, e: Event): Chain
    requires Enabled(c, e)
  {
    match e
    case Mutate(m) =>
      var svc := Mutated(c.svc, m);
      c.(svc := svc, versions := c.versions + [svc.durable], mutations := c.mutations + [m],
         scheduledAt := if svc.pending > c.svc.pending then |c.versions| else c.scheduledAt)
    case BeginWrite(snap) =>
      var svc := c.svc.(pending := c.svc.pending - 1);
      if c.svc.queued then c.(svc := svc.(queued := false), writing := Some(Write(snap, |c.versions| - 1)))
      else c.(svc := svc)
    case EndWrite(ok) =>
      if ok then c.(writing := None, disk := Some(c.writing.value.snap), diskAt := c.writing.value.at, lastWriteFailed := false)
      else c.(writing := None, lastWriteFailed := true)
  }

  ghost predicate ValidRun(c: Chain, events: seq<Event>)
    decreases |events|
  {
    events == [] || (Enabled(c, events[0]) && ValidRun(Apply(c, events[0]), events[1..]))
  }

  ghost function After(c: Chain, events: seq<Event>): Chain
    requires ValidRun(c, events)
    decreases |events|
  {
    if events == [] then c else After(Apply(c, events[0]), events[1..])
  }

  /** What a restart finds. */
  function Reread(disk: Option<Snapshot>): Durable {
    match disk case None => EMPTY case Some(snap) => Hydrated(snap)
  }

  /** A service that has just hydrated, with nothing chained. */
  ghost predicate Started(c: Chain) {
    && c.svc.persistent && !c.svc.queued && c.svc.pending == 0 && AllKeyedById(c.svc.durable.revisions)
    && c.versions == [c.svc.durable] && c.mutations == [] && c.scheduledAt == 0 && c.diskAt == 0
    && c.writing.None? && !c.lastWriteFailed
    && (match c.disk case None => c.svc.durable == EMPTY case Some(snap) => Serializes(snap, c.svc.durable))
  }

  ghost predicate Drained(c: Chain) { c.svc.pending == 0 && c.writing.None? }

  ghost predicate Holds(c: Chain, snap: Snapshot, at: nat) {
    at < |c.versions| && Serializes(snap, c.versions[at])
  }

  /** The file holds version `diskAt`. */
  ghost predicate DiskHolds(c: Chain) {
    match c.disk
    case None => c.diskAt == 0 && c.versions != [] && c.versions[0] == EMPTY
    case Some(snap) => Holds(c, snap, c.diskAt)
  }

  /** Restoring an inactive revision not recorded yet: the one change that asks for no write. */
  predicate Unscheduled(d: Durable, m: Mutation) {
    m.Restore? && !m.isActive && RecordOf(d.revisions, m.project, m.fn, m.rev.id).None?
  }

  /** What a mutation that asks for no write does. */
  predicate Recorded(d: Durable, m: Mutation, d': Durable) {
    d' == if Unscheduled(d, m) then d.(revisions := WithRecord(d.revisions, m.project, m.fn, m.rev.(project := m.project, functionName := m.fn))) else d
  }

  /** Each mutation since the last that asked for a write recorded a revision or did nothing. */
  ghost predicate TailRecorded(c: Chain) {
    |c.versions| == |c.mutations| + 1
    && forall i {:trigger c.mutations[i]} :: c.scheduledAt <= i < |c.mutations| ==> Recorded(c.versions[i], c.mutations[i], c.versions[i + 1])
  }

  /** What is not on disk is being written, or queued behind a pending write. */
  ghost predicate Inv(c: Chain) {
    && c.svc.persistent && c.scheduledAt < |c.versions| && c.versions[|c.versions| - 1] == c.svc.durable
    && (forall i :: 0 <= i < |c.versions| ==> AllKeyedById(c.versions[i].revisions))
    && TailRecorded(c) && DiskHolds(c)
    && (c.svc.queued ==> c.svc.pending > 0 && c.scheduledAt > 0)
    && (c.writing.Some? ==> Holds(c, c.writing.value.snap, c.writing.value.at))
    && (c.svc.queued || c.writing.Some? ==> c.diskAt < c.scheduledAt)
    && (!c.svc.queued && c.writing.Some? ==> c.writing.value.at >= c.scheduledAt)
    && (c.writing.Some? && c.svc.queued ==> c.writing.value.at < c.scheduledAt)
    && (c.lastWriteFailed ==> c.scheduledAt > 0)
    && (!c.svc.queued && c.writing.None? ==> (!c.lastWriteFailed <==> c.diskAt >= c.scheduledAt))
  }

  lemma SavingKeepsKeys(rs: Records, project: string, fn: string, rev: Revision)
    requires AllKeyedById(rs)
    ensures AllKeyedById(WithRecord(rs, project, fn, rev))
  {
    var r := WithRecord(rs, project, fn, rev);
    forall p, f | p in r && f in r[p] ensures KeyedById(r[p][f]) {
      if p in rs && f in rs[p] { assert KeyedById(rs[p][f]); }
    }
  }

  lemma MutationKeepsKeys(s: Service, m: Mutation)
    requires AllKeyedById(s.durable.revisions)
    ensures AllKeyedById(Mutated(s, m).durable.revisions)
  {
    var rs := s.durable.revisions;
    match m {
      case FinishDeploy(rev, healthy) =>
        SavingKeepsKeys(rs, rev.project, rev.functionName, rev.(state := if healthy then Deployed else Failed));
      case Restore(project, fn, rev, _) =>
        SavingKeepsKeys(rs, project, fn, rev.(project := project, functionName := fn));
      case _ =>
    }
    hide TakesOver, WithRecord, WithPointer, PointerOf, RecordOf;
  }

  /** Routes and metadata are replaced for their project alone. */
  lemma SettersSet(s: Service, project: string, routes: seq<RouteDecl>, meta: Metadata, p: string)
    ensures var d := Mutated(s, SetRoutes(project, routes)).durable;
      project in d.routes && d.routes[project] == routes
      && d == s.durable.(routes := d.routes) && (p != project ==> (p in d.routes <==> p in s.durable.routes) && (p in d.routes ==> d.routes[p] == s.durable.routes[p]))
    ensures var d := Mutated(s, SetMetadata(project, meta)).durable;
      project in d.metadata && d.metadata[project] == meta
      && d == s.durable.(metadata := d.metadata) && (p != project ==> (p in d.metadata <==> p in s.durable.metadata) && (p in d.metadata ==> d.metadata[p] == s.durable.metadata[p]))
  {
  }

  /** The durable state changes and no write is asked for exactly when an inactive revision
      that is not recorded yet is restored. */
  lemma MutationsSchedule(s: Service, m: Mutation)
    requires s.persistent
    ensures var t := Mutated(s, m);
      t.persistent && (if t.pending > s.pending then t.queued && t.pending == s.pending + 1 else t.pending == s.pending && t.queued == s.queued)
    ensures var t := Mutated(s, m);
      t.durable != s.durable && t.pending == s.pending <==> Unscheduled(s.durable, m)
    ensures Mutated(s, m).pending == s.pending ==> Recorded(s.durable, m, Mutated(s, m).durable)
  {
    hide TakesOver;
  }

  lemma EventKeepsInv(c: Chain, e: Event)
    requires Enabled(c, e) && Inv(c)
    ensures Inv(Apply(c, e))
  {
    hide Serializes, AllKeyedById, Mutated, Recorded;
    if e.Mutate? {
      MutationKeepsKeys(c.svc, e.mutation);
      MutationsSchedule(c.svc, e.mutation);
    }
  }

  lemma {:induction false} InvThroughRun(c: Chain, events: seq<Event>)
    requires ValidRun(c, events) && Inv(c)
    ensures Inv(After(c, events))
    decreases |events|
  {
    if events != [] {
      EventKeepsInv(c, events[0]);
      InvThroughRun(Apply(c, events[0]), events[1..]);
    }
  }

  /** A restart rebuilds the version on file. */
  lemma DiskReadsBack(c: Chain)
    requires Inv(c)
    ensures c.diskAt < |c.versions| && Reread(c.disk) == c.versions[c.diskAt]
  {
    hide Serializes, AllKeyedById;
    if c.disk.Some? { HydrationRestoresIff(c.disk.value, c.versions[c.diskAt]); }
  }

  /** Once the chain drains a restart finds no state older than the last scheduled
      mutation, if the last write succeeded; if it failed, the snapshot on file was
      taken before that mutation. */
  lemma DrainedChainLosesNothing(c: Chain, events: seq<Event>)
    requires Started(c) && ValidRun(c, events) && Drained(After(c, events))
    ensures var end := After(c, events);
      end.diskAt < |end.versions| && Reread(end.disk) == end.versions[end.diskAt]
      && (!end.lastWriteFailed <==> end.scheduledAt <= end.diskAt)
  {
    hide Serializes, AllKeyedById;
    InvThroughRun(c, events);
    DiskReadsBack(After(c, events));
  }

  /** No inactive revision was newly restored since the snapshot on file was taken. */
  ghost predicate NoneUnscheduled(c: Chain)
    requires |c.versions| == |c.mutations| + 1
  {
    forall i {:trigger c.mutations[i]} :: c.diskAt <= i < |c.mutations| ==> !Unscheduled(c.versions[i], c.mutations[i])
  }

  /** If the last write succeeded, a restart after the chain drained finds the state as it
      is exactly when no inactive revision was newly restored since the snapshot on file. */
  lemma DrainedFileIsCurrentIff(c: Chain, events: seq<Event>)
    requires Started(c) && ValidRun(c, events) && Drained(After(c, events)) && !After(c, events).lastWriteFailed
    ensures var end := After(c, events);
      |end.versions| == |end.mutations| + 1 && (Reread(end.disk) == end.svc.durable <==> NoneUnscheduled(end))
  {
    InvThroughRun(c, events);
    var end := After(c, events);
    DiskReadsBack(end);
    hide Serializes, AllKeyedById, Reread, After, ValidRun, Unscheduled;
    TailGrows(end, end.diskAt, |end.mutations|);
  }

  ghost predicate RecordsStay(d: Durable, d': Durable) {
    forall p: string, f: string, k: string :: RecordOf(d.revisions, p, f, k).Some? ==> RecordOf(d'.revisions, p, f, k).Some?
  }

  /** From any version after the last scheduled mutation on, records only come, and the state
      is the same exactly when none came. */
  lemma {:induction false} TailGrows(c: Chain, first: nat, last: nat)
    requires TailRecorded(c) && c.scheduledAt <= first <= last < |c.versions|
    ensures RecordsStay(c.versions[first], c.versions[last])
    ensures c.versions[first] == c.versions[last] <==> forall i {:trigger c.mutations[i]} :: first <= i < last ==> !Unscheduled(c.versions[i], c.mutations[i])
    decreases last
  {
    if first < last {
      TailGrows(c, first, last - 1);
      var d, m, d' := c.versions[last - 1], c.mutations[last - 1], c.versions[last];
      assert Recorded(d, m, d');
      if Unscheduled(d, m) {
        assert RecordOf(d'.revisions, m.project, m.fn, m.rev.id).Some?;
      }
    }
  }

  ghost predicate LosesARestore(c: Chain, m: Mutation) {
    Started(c) && c.disk.Some? && Unscheduled(c.svc.durable, m) && ValidRun(c, [Mutate(m)])
    && var end := After(c, [Mutate(m)]); Drained(end) && !end.lastWriteFailed && Reread(end.disk) != end.svc.durable
  }

  /** Every such restore into a service just started is lost by a restart. */
  lemma InactiveRestoreIsLost(c: Chain, m: Mutation)
    requires Started(c) && c.disk.Some? && Unscheduled(c.svc.durable, m)
    ensures LosesARestore(c, m)
  {
    hide Serializes, AllKeyedById, Reread, Hydrated;
    var events := [Mutate(m)];
    assert events[1..] == [];
    MutationsSchedule(c.svc, m);
    DrainedFileIsCurrentIff(c, events);
    assert After(c, events).mutations[0] == m;
  }

  const EMPTY_CHAIN: Chain :=
    Chain(Service(EMPTY, 0, true, false, 0), [EMPTY], [], 0, None, Some(Snapshot([], [], [], [])), 0, false)

  const INACTIVE: Mutation := Restore("p", "f", Revision("rev_A", "p", "f", "sha256:a", "", Deployed, 1, ""), false)

  /** For instance into an empty service whose file is empty too. */
  lemma RestoreIntoEmptyIsLost()
    ensures LosesARestore(EMPTY_CHAIN, INACTIVE)
  {
    EmptyStarts();
    hide Started, Unscheduled, LosesARestore;
    InactiveRestoreIsLost(EMPTY_CHAIN, INACTIVE);
  }

  lemma EmptyStarts()
    ensures Started(EMPTY_CHAIN) && Unscheduled(EMPTY, INACTIVE)
  {
    EmptyIsWritten();
    hide Serializes;
  }

  lemma EmptyIsWritten()
    ensures Serializes(Snapshot([], [], [], []), EMPTY)
  {
  }
}

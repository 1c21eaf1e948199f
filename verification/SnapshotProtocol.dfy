/**
  Snapshot distribution for one project: the control plane's cached, versioned snapshot
  (apps/api/control-server.ts, packages/protocol/snapshot.ts) and the runtime polling it
  (apps/runtime/runtime-server.ts).  Reads of a snapshot under construction are separated
  by awaits, so deployments and other constructions interleave with them.
*/
module SnapshotProtocol {
  import opened Options
  import opened Ulid
  import opened StoreKeys
  import opened EntityTags

  datatype Rev = Rev(id: string, artifactId: string, state: string, manifest: string)

  datatype Entry = Entry(fn: string, rev: Rev)

  datatype Route = Route(pattern: string, fn: string)

  /** What the deployment service holds now; `names` are the function names in order. */
  datatype Live = Live(names: seq<string>, active: map<string, string>, routes: Option<seq<Route>>, meta: Option<string>)

  datatype Snapshot = Snapshot(version: nat, routes: seq<Route>, functions: seq<Entry>, meta: Option<string>)

  /** The distributor's counter, its last snapshot and the fingerprint it was made for. */
  datatype ProjectState = ProjectState(currentVersion: nat, snapshot: Snapshot, fingerprint: string)

  /** A getProjectSnapshot under way: function names listed, entries read so far. */
  datatype Build = Build(names: seq<string>, next: nat, got: seq<Entry>)

  datatype Response = NotModified | Body(snapshot: Snapshot)

  datatype Poll = NoPoll | Asking(have: Option<nat>, build: Build) | Answered(have: Option<nat>, response: Response)

  /** A project without revisions, pointers, routes and metadata. */
  const NOTHING: Live := Live([], map[], None, None)

  /** Revisions are immutable: the catalog gives the record of every id. */
  type Catalog = map<(string, string), Rev>

  datatype System = System(catalog: Catalog, live: Live, cache: Option<ProjectState>, made: seq<Snapshot>,
                           builds: map<nat, Build>, runtime: Option<Snapshot>, poll: Poll)

  datatype Event =
    | Deployment(names: seq<string>, active: map<string, string>)
    | Delete
    | Configure(routes: Option<seq<Route>>, meta: Option<string>)
    | Invalidate
    | BuildBegins(b: nat)
    | BuildReads(b: nat)
    | BuildEnds(b: nat)
    | PollBegins
    | PollReads
    | PollIsAnswered
    | PollArrives
    | PollFails

  // ---------------------------------------------------------------- fingerprints

  function Part(e: Entry): string { e.fn + [':'] + (e.rev.id + [':'] + (e.rev.artifactId + [':'] + e.rev.state)) }

  function Parts(es: seq<Entry>): seq<string> { seq(|es|, i requires 0 <= i < |es| => Part(es[i])) }

  function Inserted(x: string, s: seq<string>): seq<string> {
    if s == [] || StringLe(x, s[0]) then [x] + s else [s[0]] + Inserted(x, s[1..])
  }

  function Sorted(s: seq<string>): seq<string> {
    if s == [] then [] else Inserted(s[0], Sorted(s[1..]))
  }

  function Fingerprint(es: seq<Entry>): string { JoinBy(';', Sorted(Parts(es))) }

  /** Names and ids hold no delimiter of the fingerprint. */
  predicate DelimiterFree(e: Entry) {
    ':' !in e.fn && ';' !in e.fn && ':' !in e.rev.id && ';' !in e.rev.id && ';' !in e.rev.artifactId
    && ':' !in e.rev.state && ';' !in e.rev.state
  }

  predicate AllDelimiterFree(es: seq<Entry>) { forall i :: 0 <= i < |es| ==> DelimiterFree(es[i]) }

  // ---------------------------------------------------------------- building a snapshot

  function EntryOf(catalog: Catalog, active: map<string, string>, fn: string): seq<Entry> {
    if fn in active && (fn, active[fn]) in catalog then [Entry(fn, catalog[(fn, active[fn])])] else []
  }

  /** The entries of the first `n` names, read all at once. */
  function EntriesOf(catalog: Catalog, active: map<string, string>, names: seq<string>, n: nat): seq<Entry>
    requires n <= |names|
  {
    if n == 0 then [] else EntriesOf(catalog, active, names, n - 1) + EntryOf(catalog, active, names[n - 1])
  }

  function CurrentEntries(s: System): seq<Entry> { EntriesOf(s.catalog, s.live.active, s.live.names, |s.live.names|) }

  /** Declared routes, or one per function. */
  function RoutesFor(declared: Option<seq<Route>>, es: seq<Entry>): seq<Route> {
    if declared.Some? && declared.value != [] then declared.value
    else seq(|es|, i requires 0 <= i < |es| => Route("/" + es[i].fn, es[i].fn))
  }

  /** Declared routes and nothing else, or one route per function, in order, from its name to it. */
  predicate RoutesServe(declared: Option<seq<Route>>, es: seq<Entry>, routes: seq<Route>) {
    if declared.Some? && |declared.value| > 0 then routes == declared.value
    else |routes| == |es| && forall i :: 0 <= i < |es| ==> routes[i].pattern == "/" + es[i].fn && routes[i].fn == es[i].fn
  }

  /** Every listed function that has an active revision on record, with that revision, and no other. */
  ghost predicate ListsExactly(s: System, es: seq<Entry>) {
    forall fn, rev :: Entry(fn, rev) in es <==>
      fn in s.live.names && fn in s.live.active && (fn, s.live.active[fn]) in s.catalog && rev == s.catalog[(fn, s.live.active[fn])]
  }

  lemma {:induction false} EntriesListExactly(s: System, n: nat)
    requires n <= |s.live.names|
    ensures forall fn, rev :: Entry(fn, rev) in EntriesOf(s.catalog, s.live.active, s.live.names, n) <==>
      fn in s.live.names[..n] && fn in s.live.active && (fn, s.live.active[fn]) in s.catalog && rev == s.catalog[(fn, s.live.active[fn])]
  {
    if n > 0 {
      EntriesListExactly(s, n - 1);
      assert s.live.names[..n] == s.live.names[..n - 1] + [s.live.names[n - 1]];
    }
  }

  function Began(live: Live): Build { Build(live.names, 0, []) }

  function ReadOne(s: System, b: Build): Build
    requires b.next < |b.names|
  {
    b.(next := b.next + 1, got := b.got + EntryOf(s.catalog, s.live.active, b.names[b.next]))
  }

  /** The end of getProjectSnapshot: a new version unless the fingerprint is the cached one. */
  function Finished(cache: Option<ProjectState>, live: Live, es: seq<Entry>): ProjectState {
    var fingerprint := Fingerprint(es);
    if cache.Some? && cache.value.fingerprint == fingerprint then cache.value
    else
      var version := (if cache.Some? then cache.value.currentVersion else 0) + 1;
      ProjectState(version, Snapshot(version, RoutesFor(live.routes, es), es, live.meta), fingerprint)
  }

  function Ended(s: System, es: seq<Entry>): System {
    var state := Finished(s.cache, s.live, es);
    s.(cache := Some(state), made := if s.cache == Some(state) then s.made else s.made + [state.snapshot])
  }

  /** The server's answer to a poll holding version `have`. */
  function Answer(have: Option<nat>, snapshot: Snapshot): Response {
    if have.Some? && EtagMatches(VersionTag(have.value), VersionTag(snapshot.version)) then NotModified else Body(snapshot)
  }

  /** The runtime takes a body only if it is newer than what it has. */
  function Accepted(runtime: Option<Snapshot>, r: Response): Option<Snapshot> {
    if r.Body? && (runtime.None? || r.snapshot.version > runtime.value.version) then Some(r.snapshot) else runtime
  }

  function VersionOf(sn: Option<Snapshot>): Option<nat> { if sn.Some? then Some(sn.value.version) else None }

  // ---------------------------------------------------------------- steps

  predicate Complete(b: Build) { b.next == |b.names| }

  predicate Enabled(s: System, e: Event) {
    match e
    case BuildReads(b) => b in s.builds && s.builds[b].next < |s.builds[b].names|
    case BuildEnds(b) => b in s.builds && Complete(s.builds[b])
    case PollBegins => s.poll.NoPoll?
    case PollReads => s.poll.Asking? && s.poll.build.next < |s.poll.build.names|
    case PollIsAnswered => s.poll.Asking? && Complete(s.poll.build)
    case PollArrives => s.poll.Answered?
    case _ => true
  }

  /** A handler sets routes and metadata and invalidates in one go; a change of pointers and
      its invalidation lie apart; the deletion of the project does not invalidate. */
  function Step(s: System, e: Event): System
    requires Enabled(s, e)
  {
    match e
    case Deployment(names, active) => s.(live := s.live.(names := names, active := active))
    case Delete => s.(live := NOTHING)
    case Configure(routes, meta) =>
      s.(live := s.live.(routes := routes, meta := meta), cache := Dirty(s.cache))
    case Invalidate => s.(cache := Dirty(s.cache))
    case BuildBegins(b) => s.(builds := s.builds[b := Began(s.live)])
    case BuildReads(b) => s.(builds := s.builds[b := ReadOne(s, s.builds[b])])
    case BuildEnds(b) => Ended(s, s.builds[b].got).(builds := s.builds - {b})
    case PollBegins => s.(poll := Asking(VersionOf(s.runtime), Began(s.live)))
    case PollReads => s.(poll := s.poll.(build := ReadOne(s, s.poll.build)))
    case PollIsAnswered =>
      var s' := Ended(s, s.poll.build.got);
      s'.(poll := Answered(s.poll.have, Answer(s.poll.have, s'.cache.value.snapshot)))
    case PollArrives => s.(runtime := Accepted(s.runtime, s.poll.response), poll := NoPoll)
    case PollFails => s.(poll := NoPoll)
  }

  function Dirty(cache: Option<ProjectState>): Option<ProjectState> {
    match cache case None => None case Some(c) => Some(c.(fingerprint := ""))
  }

  predicate ValidRun(s: System, events: seq<Event>)
    decreases |events|, 0
  {
    events == [] || (ValidRun(s, events[..|events| - 1]) && Enabled(Run(s, events[..|events| - 1]), events[|events| - 1]))
  }

  function Run(s: System, events: seq<Event>): System
    requires ValidRun(s, events)
    decreases |events|, 1
  {
    if events == [] then s else Step(Run(s, events[..|events| - 1]), events[|events| - 1])
  }

  predicate Fresh(s: System) {
    s.cache.None? && s.made == [] && s.builds == map[] && s.runtime.None? && s.poll.NoPoll?
  }

  ghost predicate CatalogDelimiterFree(catalog: Catalog) {
    forall fn, id :: (fn, id) in catalog ==> catalog[(fn, id)].id == id && DelimiterFree(Entry(fn, catalog[(fn, id)]))
  }

  // ---------------------------------------------------------------- fingerprints decide

  lemma {:induction false} InsertedKeeps(x: string, s: seq<string>)
    ensures multiset(Inserted(x, s)) == multiset{x} + multiset(s)
  {
    if s != [] && !StringLe(x, s[0]) {
      InsertedKeeps(x, s[1..]);
      assert s == [s[0]] + s[1..];
    }
  }

  lemma {:induction false} SortedKeeps(s: seq<string>)
    ensures multiset(Sorted(s)) == multiset(s)
  {
    if s != [] {
      SortedKeeps(s[1..]);
      InsertedKeeps(s[0], Sorted(s[1..]));
      assert s == [s[0]] + s[1..];
    }
  }

  lemma PartDecides(a: Entry, b: Entry)
    requires DelimiterFree(a) && DelimiterFree(b) && Part(a) == Part(b)
    ensures a.fn == b.fn && a.rev.id == b.rev.id
  {
    var x, y := a.rev.artifactId + [':'] + a.rev.state, b.rev.artifactId + [':'] + b.rev.state;
    FirstSepDecides(':', a.fn, a.rev.id + [':'] + x, b.fn, b.rev.id + [':'] + y);
    FirstSepDecides(':', a.rev.id, x, b.rev.id, y);
  }

  /** Entries of one catalog. */
  predicate FromCatalog(catalog: Catalog, es: seq<Entry>) {
    forall i :: 0 <= i < |es| ==> (es[i].fn, es[i].rev.id) in catalog && catalog[(es[i].fn, es[i].rev.id)] == es[i].rev
  }

  lemma PartHasNoSemicolon(e: Entry)
    requires DelimiterFree(e)
    ensures ';' !in Part(e) && Part(e) != ""
  {
  }

  /** Equal fingerprints come from the same active revisions. */
  lemma FingerprintDecides(catalog: Catalog, a: seq<Entry>, b: seq<Entry>)
    requires AllDelimiterFree(a) && AllDelimiterFree(b) && FromCatalog(catalog, a) && FromCatalog(catalog, b)
    requires Fingerprint(a) == Fingerprint(b)
    ensures forall e :: e in a <==> e in b
  {
    SortedKeeps(Parts(a));
    SortedKeeps(Parts(b));
    SamePartsFrom(a, b);
    assert multiset(Parts(a)) == multiset(Parts(b));
    SomeIsIn(catalog, a, b);
    SomeIsIn(catalog, b, a);
  }

  lemma SomeIsIn(catalog: Catalog, a: seq<Entry>, b: seq<Entry>)
    requires AllDelimiterFree(a) && AllDelimiterFree(b) && FromCatalog(catalog, a) && FromCatalog(catalog, b)
    requires multiset(Parts(a)) == multiset(Parts(b))
    ensures forall e :: e in a ==> e in b
  {
    forall i | 0 <= i < |a| ensures a[i] in b {
      assert Parts(a)[i] in multiset(Parts(a));
      assert Parts(a)[i] in Parts(b);
      var j :| 0 <= j < |b| && Parts(b)[j] == Parts(a)[i];
      PartDecides(a[i], b[j]);
    }
  }

  lemma SamePartsFrom(a: seq<Entry>, b: seq<Entry>)
    requires AllDelimiterFree(a) && AllDelimiterFree(b) && Fingerprint(a) == Fingerprint(b)
    ensures Sorted(Parts(a)) == Sorted(Parts(b))
  {
    var x, y := Sorted(Parts(a)), Sorted(Parts(b));
    SortedIsClean(a);
    SortedIsClean(b);
    if x != [] && y != [] {
      FreeJoinDecides(';', x, y);
    } else if x != [] {
      JoinIsSomething(x);
    } else if y != [] {
      JoinIsSomething(y);
    }
  }

  lemma SortedIsClean(a: seq<Entry>)
    requires AllDelimiterFree(a)
    ensures FreeOf(';', Sorted(Parts(a))) && forall i :: 0 <= i < |Sorted(Parts(a))| ==> Sorted(Parts(a))[i] != ""
  {
    SortedKeeps(Parts(a));
    var x := Sorted(Parts(a));
    forall i | 0 <= i < |x| ensures ';' !in x[i] && x[i] != "" {
      assert x[i] in multiset(x);
      assert x[i] in Parts(a);
      var j :| 0 <= j < |a| && Parts(a)[j] == x[i];
      PartHasNoSemicolon(a[j]);
    }
  }

  lemma JoinIsSomething(x: seq<string>)
    requires x != [] && x[0] != ""
    ensures JoinBy(';', x) != ""
  {
  }

  // ---------------------------------------------------------------- entries in order

  predicate Ascending(names: seq<string>) { forall i, j :: 0 <= i < j < |names| ==> StringLt(names[i], names[j]) }

  predicate InOrder(es: seq<Entry>) { forall i, j :: 0 <= i < j < |es| ==> StringLt(es[i].fn, es[j].fn) }

  lemma {:induction false} SameInOrder(a: seq<Entry>, b: seq<Entry>)
    requires InOrder(a) && InOrder(b) && forall e :: e in a <==> e in b
    ensures a == b
    decreases |a|
  {
    hide StringLe;
    assert (a != [] ==> a[0] in b) && (b != [] ==> b[0] in a);
    if a != [] && b != [] {
      SameFirst(a, b);
      var x, y := a[1..], b[1..];
      assert a == [a[0]] + x && b == [b[0]] + y;
      FirstIsApart(a);
      FirstIsApart(b);
      forall e | e in x ensures e in y { assert e in [b[0]] + y; }
      forall e | e in y ensures e in x { assert e in [a[0]] + x; }
      SameInOrder(x, y);
    }
  }

  lemma FirstIsApart(a: seq<Entry>)
    requires InOrder(a) && a != []
    ensures a[0] !in a[1..]
  {
    hide StringLe;
  }

  lemma SameFirst(a: seq<Entry>, b: seq<Entry>)
    requires InOrder(a) && InOrder(b) && a != [] && b != [] && forall e :: e in a <==> e in b
    ensures a[0] == b[0]
  {
    hide StringLe;
    assert a[0] in b && b[0] in a;
    var j :| 0 <= j < |b| && b[j] == a[0];
    var i :| 0 <= i < |a| && a[i] == b[0];
    StringLeIsTotalOrder(a[0].fn, b[0].fn, a[0].fn);
  }

  /** Entries read in name order, each from the catalog. */
  predicate GoodEntries(catalog: Catalog, es: seq<Entry>) { InOrder(es) && FromCatalog(catalog, es) }

  predicate ReadFrom(es: seq<Entry>, names: seq<string>, n: nat) {
    n <= |names| && forall i :: 0 <= i < |es| ==> es[i].fn in names[..n]
  }

  predicate GoodBuild(catalog: Catalog, b: Build) {
    Ascending(b.names) && ReadFrom(b.got, b.names, b.next) && GoodEntries(catalog, b.got)
  }

  lemma ReadKeepsGood(s: System, b: Build)
    requires CatalogDelimiterFree(s.catalog) && GoodBuild(s.catalog, b) && b.next < |b.names|
    ensures GoodBuild(s.catalog, ReadOne(s, b))
  {
    hide StringLe, DelimiterFree;
    assert b.names[..b.next + 1] == b.names[..b.next] + [b.names[b.next]];
    forall i | 0 <= i < |b.got| ensures StringLt(b.got[i].fn, b.names[b.next]) {
      var k :| 0 <= k < b.next && b.names[k] == b.got[i].fn;
    }
  }

  lemma {:induction false} CurrentIsGood(s: System, n: nat)
    requires CatalogDelimiterFree(s.catalog) && Ascending(s.live.names) && n <= |s.live.names|
    ensures GoodBuild(s.catalog, Build(s.live.names, n, EntriesOf(s.catalog, s.live.active, s.live.names, n)))
  {
    if n > 0 {
      CurrentIsGood(s, n - 1);
      ReadKeepsGood(s, Build(s.live.names, n - 1, EntriesOf(s.catalog, s.live.active, s.live.names, n - 1)));
    }
  }

  lemma GoodIsDelimiterFree(catalog: Catalog, es: seq<Entry>)
    requires CatalogDelimiterFree(catalog) && FromCatalog(catalog, es)
    ensures AllDelimiterFree(es)
  {
    hide DelimiterFree;
    forall i | 0 <= i < |es| ensures DelimiterFree(es[i]) {
      assert Entry(es[i].fn, catalog[(es[i].fn, es[i].rev.id)]) == es[i];
    }
  }

  lemma FingerprintIsExact(catalog: Catalog, a: seq<Entry>, b: seq<Entry>)
    requires CatalogDelimiterFree(catalog) && GoodEntries(catalog, a) && GoodEntries(catalog, b)
    ensures Fingerprint(a) == Fingerprint(b) <==> a == b
  {
    hide Fingerprint, InOrder, CatalogDelimiterFree;
    if Fingerprint(a) == Fingerprint(b) {
      GoodIsDelimiterFree(catalog, a);
      GoodIsDelimiterFree(catalog, b);
      FingerprintDecides(catalog, a, b);
      SameInOrder(a, b);
    }
  }

  /** The mark of an invalidated snapshot is the fingerprint of no entries, and of nothing else. */
  lemma EmptyFingerprintIff(catalog: Catalog, es: seq<Entry>)
    requires CatalogDelimiterFree(catalog) && GoodEntries(catalog, es)
    ensures Fingerprint(es) == "" <==> es == []
  {
    assert Parts([]) == [];
    FingerprintIsExact(catalog, es, []);
  }

  // ---------------------------------------------------------------- the invariant

  predicate IsMade(s: System, sn: Snapshot) { 1 <= sn.version <= |s.made| && s.made[sn.version - 1] == sn }

  ghost predicate MadeSound(s: System) {
    forall i :: 0 <= i < |s.made| ==> s.made[i].version == i + 1 && GoodEntries(s.catalog, s.made[i].functions)
  }

  /** The cache holds the last snapshot made, with the fingerprint of its entries or the mark. */
  ghost predicate CacheSound(s: System) {
    match s.cache
    case None => s.made == []
    case Some(c) =>
      s.made != [] && c.currentVersion == |s.made| && c.snapshot == s.made[|s.made| - 1]
      && (c.fingerprint != "" ==> c.fingerprint == Fingerprint(c.snapshot.functions))
  }

  /** Unless it is marked, the cached snapshot has the routes and metadata of now. */
  predicate RoutesSound(s: System) {
    s.cache.Some? && s.cache.value.fingerprint != "" ==>
      var sn := s.cache.value.snapshot; sn.routes == RoutesFor(s.live.routes, sn.functions) && sn.meta == s.live.meta
  }

  ghost predicate BuildsSound(s: System) {
    Ascending(s.live.names) && (forall b :: b in s.builds ==> GoodBuild(s.catalog, s.builds[b]))
    && (s.poll.Asking? ==> GoodBuild(s.catalog, s.poll.build))
  }

  /** The runtime has a snapshot that was made; an answer under way is newer, or confirms it. */
  predicate RuntimeSound(s: System) {
    (s.runtime.Some? ==> IsMade(s, s.runtime.value))
    && (s.poll.Asking? ==> s.poll.have == VersionOf(s.runtime))
    && (s.poll.Answered? && s.poll.response.NotModified? ==> s.runtime.Some?)
    && (s.poll.Answered? && s.poll.response.Body? ==>
      IsMade(s, s.poll.response.snapshot) && (s.runtime.Some? ==> s.poll.response.snapshot.version > s.runtime.value.version))
  }

  ghost predicate Inv(s: System) {
    CatalogDelimiterFree(s.catalog) && MadeSound(s) && CacheSound(s) && BuildsSound(s) && RuntimeSound(s)
  }

  /** Function names are listed sorted. */
  predicate Orderly(e: Event) { e.Deployment? ==> Ascending(e.names) }

  lemma EndedKeepsInv(s: System, es: seq<Entry>)
    requires Inv(s) && GoodEntries(s.catalog, es)
    ensures Inv(Ended(s, es)) && s.made <= Ended(s, es).made && Ended(s, es).cache.Some?
  {
    hide Fingerprint, GoodEntries, GoodBuild, CatalogDelimiterFree, RoutesFor, Ascending;
    var s' := Ended(s, es);
    if s.cache != s'.cache {
      assert s'.made[..|s.made|] == s.made;
    }
  }

  lemma AnswerIsSound(s: System)
    requires Inv(s) && s.cache.Some? && s.poll.Asking?
    ensures var r := Answer(s.poll.have, s.cache.value.snapshot);
      Inv(s.(poll := Answered(s.poll.have, r)))
      && (r.NotModified? ==> s.runtime == Some(s.cache.value.snapshot)) && (r.Body? ==> r.snapshot == s.cache.value.snapshot)
  {
    hide GoodEntries, GoodBuild, CatalogDelimiterFree, EtagMatches, VersionTag, Fingerprint, RoutesFor;
    if s.poll.have.Some? { VersionsMatchIff(s.poll.have.value, s.cache.value.snapshot.version); }
    assert s.cache.value.snapshot.version == |s.made|;
  }

  lemma ReadingKeepsInv(s: System, e: Event)
    requires Inv(s) && Enabled(s, e) && (e.BuildBegins? || e.PollBegins? || e.BuildReads? || e.PollReads?)
    ensures Inv(Step(s, e))
  {
    BeganIsGood(s);
    if e.BuildReads? { ReadKeepsGood(s, s.builds[e.b]); }
    if e.PollReads? { ReadKeepsGood(s, s.poll.build); }
    hide GoodBuild, GoodEntries, Ascending, ReadOne, Fingerprint, RoutesFor, Began, CatalogDelimiterFree;
  }

  lemma EndingKeepsInv(s: System, e: Event)
    requires Inv(s) && Enabled(s, e) && (e.BuildEnds? || e.PollIsAnswered?)
    ensures Inv(Step(s, e)) && s.made <= Step(s, e).made
  {
    var b := if e.BuildEnds? then s.builds[e.b] else s.poll.build;
    assert GoodEntries(s.catalog, b.got) by { assert GoodBuild(s.catalog, b); }
    EndedKeepsInv(s, b.got);
    EndedRest(s, b.got);
    hide GoodBuild, GoodEntries, Ascending, Fingerprint, RoutesFor, CatalogDelimiterFree, Ended, Answer;
    if e.PollIsAnswered? { AnswerIsSound(Ended(s, b.got)); }
  }

  lemma StepKeepsInv(s: System, e: Event)
    requires Inv(s) && Enabled(s, e) && Orderly(e)
    ensures Inv(Step(s, e)) && s.made <= Step(s, e).made && Step(s, e).catalog == s.catalog
  {
    hide Fingerprint, RoutesFor, GoodBuild, GoodEntries, Ascending, Ended, CatalogDelimiterFree, Answer, ReadOne;
    match e
    case BuildBegins(_) => ReadingKeepsInv(s, e);
    case PollBegins => ReadingKeepsInv(s, e);
    case BuildReads(_) => ReadingKeepsInv(s, e);
    case PollReads => ReadingKeepsInv(s, e);
    case BuildEnds(b) => EndingKeepsInv(s, e); EndedRest(s, s.builds[b].got);
    case PollIsAnswered => EndingKeepsInv(s, e); EndedRest(s, s.poll.build.got);
    case Delete => NothingIsAscending();
    case _ =>
  }

  lemma NothingIsAscending()
    ensures Ascending(NOTHING.names)
  {
  }

  lemma BeganIsGood(s: System)
    requires Ascending(s.live.names)
    ensures GoodBuild(s.catalog, Began(s.live))
  {
  }

  lemma EndedRest(s: System, es: seq<Entry>)
    ensures var s' := Ended(s, es);
      s'.catalog == s.catalog && s'.live == s.live && s'.builds == s.builds && s'.runtime == s.runtime && s'.poll == s.poll
  {
  }

  predicate AllOrderly(events: seq<Event>) { forall i :: 0 <= i < |events| ==> Orderly(events[i]) }

  lemma {:induction false} RunKeepsInv(s: System, events: seq<Event>)
    requires Inv(s) && ValidRun(s, events) && AllOrderly(events)
    ensures Inv(Run(s, events)) && s.made <= Run(s, events).made && Run(s, events).catalog == s.catalog
    decreases |events|
  {
    hide Step, Inv, Enabled, Orderly;
    if events != [] {
      var before := events[..|events| - 1];
      assert forall i :: 0 <= i < |before| ==> before[i] == events[i];
      RunKeepsInv(s, before);
      StepKeepsInv(Run(s, before), events[|events| - 1]);
    }
  }

  lemma FreshIsSound(s: System)
    requires Fresh(s) && CatalogDelimiterFree(s.catalog) && Ascending(s.live.names)
    ensures Inv(s)
  {
  }
}

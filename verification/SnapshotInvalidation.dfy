/** When an undisturbed construction makes a new version, and when invalidating does not help. */
module SnapshotInvalidation {
  import opened Options
  import opened Ulid
  import opened SnapshotProtocol
  import opened SnapshotFreshness

  /** A construction of `n` listed functions with nothing in between. */
  function Construction(b: nat, n: nat): seq<Event> { [BuildBegins(b)] + Reads(b, n) + [BuildEnds(b)] }

  function Reads(b: nat, n: nat): seq<Event> { if n == 0 then [] else Reads(b, n - 1) + [BuildReads(b)] }

  /** The state of a construction undisturbed since `u`, after `n` reads. */
  function AfterReads(u: System, b: nat, n: nat): System
    requires n <= |u.live.names|
  {
    u.(builds := u.builds[b := Build(u.live.names, n, EntriesOf(u.catalog, u.live.active, u.live.names, n))])
  }

  lemma ReadStep(u: System, b: nat, n: nat)
    requires 0 < n <= |u.live.names|
    ensures Enabled(AfterReads(u, b, n - 1), BuildReads(b)) && Step(AfterReads(u, b, n - 1), BuildReads(b)) == AfterReads(u, b, n)
  {
    hide EntryOf, Finished, Answer, Accepted;
  }

  lemma BeginStep(u: System, b: nat)
    ensures Enabled(u, BuildBegins(b)) && Step(u, BuildBegins(b)) == AfterReads(u, b, 0)
  {
  }

  lemma EndStep(u: System, b: nat)
    ensures var v := AfterReads(u, b, |u.live.names|);
      Enabled(v, BuildEnds(b)) && Step(v, BuildEnds(b)) == Ended(u, CurrentEntries(u)).(builds := u.builds - {b})
  {
    hide EntriesOf, Finished, Answer, Accepted;
    var v := AfterReads(u, b, |u.live.names|);
    assert v.builds - {b} == u.builds - {b};
  }

  lemma {:induction false} ReadsThrough(s: System, before: seq<Event>, u: System, b: nat, n: nat)
    requires n <= |u.live.names| && ValidRun(s, before) && Run(s, before) == AfterReads(u, b, 0)
    ensures ValidRun(s, before + Reads(b, n)) && Run(s, before + Reads(b, n)) == AfterReads(u, b, n)
    decreases n
  {
    hide Run, ValidRun, Step, Enabled, AfterReads;
    if n == 0 {
      assert before + Reads(b, 0) == before;
    } else {
      ReadsThrough(s, before, u, b, n - 1);
      ReadStep(u, b, n);
      OneMoreEvent(s, before + Reads(b, n - 1), BuildReads(b));
      assert before + Reads(b, n) == before + Reads(b, n - 1) + [BuildReads(b)];
    }
  }

  /** An undisturbed construction ends with what is active now. */
  lemma Constructs(s: System, before: seq<Event>, b: nat)
    requires ValidRun(s, before)
    ensures var u := Run(s, before); var events := before + Construction(b, |u.live.names|);
      ValidRun(s, events) && Run(s, events) == Ended(u, CurrentEntries(u)).(builds := u.builds - {b})
  {
    hide Run, ValidRun, Step, Enabled, AfterReads, Ended, CurrentEntries, Reads;
    var u := Run(s, before);
    BeginStep(u, b);
    OneMoreEvent(s, before, BuildBegins(b));
    var begun := before + [BuildBegins(b)];
    ReadsThrough(s, begun, u, b, |u.live.names|);
    EndStep(u, b);
    OneMoreEvent(s, begun + Reads(b, |u.live.names|), BuildEnds(b));
    assert before + Construction(b, |u.live.names|) == begun + Reads(b, |u.live.names|) + [BuildEnds(b)];
  }

  /** What an undisturbed construction looks at before it makes a version. */
  predicate NeedsVersion(s: System) {
    match s.cache
    case None => true
    case Some(c) => if c.fingerprint == "" then CurrentEntries(s) != [] else c.snapshot.functions != CurrentEntries(s)
  }

  lemma EndedMakesVersionIff(s: System)
    requires Inv(s)
    ensures var s' := Ended(s, CurrentEntries(s));
      if NeedsVersion(s) then |s'.made| == |s.made| + 1 else s'.made == s.made && s'.cache == s.cache && s.cache.Some?
  {
    FingerprintsTell(s);
    EndedGrowsIff(s, CurrentEntries(s));
    hide Fingerprint, EntriesOf, Inv, Ended;
  }

  lemma EndedGrowsIff(s: System, es: seq<Entry>)
    requires Inv(s)
    ensures var s' := Ended(s, es);
      if s.cache.Some? && s.cache.value.fingerprint == Fingerprint(es) then s'.made == s.made && s'.cache == s.cache
      else |s'.made| == |s.made| + 1
  {
    hide Fingerprint, EntriesOf, GoodEntries, BuildsSound, RuntimeSound, CatalogDelimiterFree, RoutesFor, MadeSound;
  }

  /** The fingerprint in the cache is the one of the current entries exactly when no version is needed. */
  lemma FingerprintsTell(s: System)
    requires Inv(s)
    ensures s.cache.Some? ==> (s.cache.value.fingerprint == Fingerprint(CurrentEntries(s)) <==> !NeedsVersion(s))
  {
    CurrentIsGood(s, |s.live.names|);
    EmptyFingerprintIff(s.catalog, CurrentEntries(s));
    if s.cache.Some? { FingerprintIsExact(s.catalog, s.cache.value.snapshot.functions, CurrentEntries(s)); }
    hide Fingerprint, EntriesOf, GoodEntries, BuildsSound, RuntimeSound, CatalogDelimiterFree, RoutesFor;
  }

  /** From any reachable state, an undisturbed construction makes a new version exactly when
      nothing was made yet, or the cached one is invalidated and some revision is active, or
      it is not and lists other revisions than the active ones. */
  lemma ConstructionMakesVersionIff(s: System, before: seq<Event>, b: nat)
    requires Fresh(s) && CatalogDelimiterFree(s.catalog) && Ascending(s.live.names) && AllOrderly(before) && ValidRun(s, before)
    ensures var u := Run(s, before); var events := before + Construction(b, |u.live.names|);
      ValidRun(s, events) && (|Run(s, events).made| > |u.made| <==> NeedsVersion(u))
      && (!NeedsVersion(u) ==> Run(s, events).cache == u.cache)
  {
    FreshIsSound(s);
    RunKeepsInv(s, before);
    Constructs(s, before, b);
    hide Run, ValidRun, Ended, NeedsVersion;
    EndedMakesVersionIff(Run(s, before));
  }

  /** An invalidation followed by an undisturbed construction makes a new version exactly when
      some revision is active or nothing was made yet; otherwise the old one is served,
      whatever it lists. */
  lemma InvalidationMakesVersionIff(s: System, before: seq<Event>, b: nat)
    requires Fresh(s) && CatalogDelimiterFree(s.catalog) && Ascending(s.live.names) && AllOrderly(before) && ValidRun(s, before)
    ensures var u := Run(s, before); var events := before + [Invalidate] + Construction(b, |u.live.names|);
      ValidRun(s, events) && (|Run(s, events).made| > |u.made| <==> u.cache.None? || CurrentEntries(u) != [])
      && (u.cache.Some? && CurrentEntries(u) == [] ==> Run(s, events).cache.Some? && Run(s, events).cache.value.snapshot == u.cache.value.snapshot)
  {
    OneMoreEvent(s, before, Invalidate);
    var u, v := Run(s, before), Run(s, before + [Invalidate]);
    assert v == u.(cache := Dirty(u.cache));
    assert AllOrderly(before + [Invalidate]);
    ConstructionMakesVersionIff(s, before + [Invalidate], b);
  }

  /** An undisturbed construction serves the project as it is exactly when it makes a version
      or the cached one is right already.  Where no deletion went unnoticed: exactly when some
      revision is active, or no version was made yet, or the cached one lists revisions and was
      not invalidated, or it is right already. */
  lemma ConstructionIsCurrentIff(s: System)
    requires Inv(s)
    ensures var s' := Ended(s, CurrentEntries(s));
      s'.cache.Some?
      && (IsCurrent(s', s'.cache.value.snapshot) <==> NeedsVersion(s) || IsCurrent(s, s.cache.value.snapshot))
      && (RoutesSound(s) ==>
          (IsCurrent(s', s'.cache.value.snapshot)
           <==> CurrentEntries(s) != [] || s.cache.None? || s.cache.value.fingerprint != "" || IsCurrent(s, s.cache.value.snapshot)))
  {
    EndedMakesVersionIff(s);
    if RoutesSound(s) && CurrentEntries(s) != [] { EndedIsCurrent(s); }
    CurrentIsGood(s, |s.live.names|);
    EmptyFingerprintIff(s.catalog, CurrentEntries(s));
    if s.cache.Some? { EmptyFingerprintIff(s.catalog, s.cache.value.snapshot.functions); }
    hide Fingerprint, EntriesOf, GoodEntries, BuildsSound, RuntimeSound, CatalogDelimiterFree, RoutesFor;
  }

  /** After a deletion an undisturbed construction serves the old snapshot on exactly when the
      cache carries the mark of an invalidation, or the fingerprint of no entries, which is the
      same; otherwise it makes a version that shows the project gone. */
  lemma DeletedIsServedOnIff(s: System, before: seq<Event>, b: nat)
    requires Fresh(s) && CatalogDelimiterFree(s.catalog) && Ascending(s.live.names) && AllOrderly(before) && ValidRun(s, before)
    ensures var u := Run(s, before); var events := before + [Delete] + Construction(b, 0);
      ValidRun(s, events) && Run(s, events).cache.Some?
      && var served := Run(s, events).cache.value.snapshot;
         if u.cache.Some? && u.cache.value.fingerprint == "" then served == u.cache.value.snapshot
         else served == Snapshot(|u.made| + 1, [], [], None)
  {
    var u := Run(s, before);
    FreshIsSound(s);
    RunKeepsInv(s, before);
    OneMoreEvent(s, before, Delete);
    Constructs(s, before + [Delete], b);
    NoFingerprint();
    hide Run, ValidRun, Fingerprint, Construction;
    var v := u.(live := NOTHING);
    assert CurrentEntries(v) == [];
  }

  // ---------------------------------------------------------------- reachable runs

  /** The run ends in an undisturbed construction, and what it serves is not the project as it is. */
  predicate ServesStale(s: System, before: seq<Event>, b: nat) {
    var events := before + Construction(b, 0);
    ValidRun(s, events)
    && var u := Run(s, events); u.cache.Some? && !IsCurrent(u, u.cache.value.snapshot)
  }

  const NO_FUNCTIONS: System := System(TWO, Live([], map[], None, None), None, [], map[], None, NoPoll)

  const ADDED: Option<seq<Route>> := Some([Route("/x", "f")])

  predicate ServesNoRoutes(before: seq<Event>) {
    ServesStale(NO_FUNCTIONS, before, 1)
    && var u := Run(NO_FUNCTIONS, before + Construction(1, 0)); u.live.routes == ADDED && u.cache.value.snapshot.routes == []
  }

  /** Routes configured for a project without an active revision are invalidated and never served. */
  lemma EmptyProjectIgnoresInvalidation()
    ensures exists before :: ServesNoRoutes(before)
  {
    NothingYet(NO_FUNCTIONS);
    Constructs(NO_FUNCTIONS, [], 0);
    hide Run, ValidRun;
    var first := [] + Construction(0, 0);
    OneMoreEvent(NO_FUNCTIONS, first, Configure(ADDED, None));
    Constructs(NO_FUNCTIONS, first + [Configure(ADDED, None)], 1);
    NoFingerprint();
    hide Fingerprint, Construction;
    assert ServesNoRoutes(first + [Configure(ADDED, None)]);
  }

  lemma NoFingerprint()
    ensures Fingerprint([]) == ""
  {
    assert Parts([]) == [];
  }

  predicate ServesRemoved(before: seq<Event>) {
    ServesStale(Start(), before, 1)
    && var u := Run(Start(), before + Construction(1, 0)); CurrentEntries(u) == [] && u.cache.value.snapshot.functions == [Entry("f", OLD)]
  }

  /** A first version made of the only revision. */
  const ONCE_CONSTRUCTED: seq<Event> := [] + Construction(0, 1)

  lemma ConstructedOnce()
    ensures ValidRun(Start(), ONCE_CONSTRUCTED)
    ensures var cache := Run(Start(), ONCE_CONSTRUCTED).cache; cache.Some? && cache.value.snapshot.functions == [Entry("f", OLD)]
  {
    NothingYet(Start());
    Constructs(Start(), [], 0);
    OnlyF();
    hide Run, ValidRun, EntriesOf, Fingerprint, Construction, RoutesFor;
  }

  /** When the last active revision goes away, invalidating keeps it served: without the
      invalidation the same construction would have made an empty version. */
  lemma RemovedRevisionStaysListed()
    ensures exists before :: ServesRemoved(before)
  {
    var s := Start();
    ConstructedOnce();
    hide Run, ValidRun;
    OneMoreEvent(s, ONCE_CONSTRUCTED, Deployment([], map[]));
    var removed := ONCE_CONSTRUCTED + [Deployment([], map[])];
    OneMoreEvent(s, removed, Invalidate);
    RemovedAfter(removed + [Invalidate], Run(s, ONCE_CONSTRUCTED).cache.value.snapshot);
  }

  lemma RemovedAfter(before: seq<Event>, snapshot: Snapshot)
    requires ValidRun(Start(), before) && snapshot.functions == [Entry("f", OLD)]
    requires var u := Run(Start(), before);
      u.live.names == [] && u.live.active == map[] && u.cache.Some? && u.cache.value.fingerprint == "" && u.cache.value.snapshot == snapshot
    ensures ServesRemoved(before)
  {
    hide Run, ValidRun;
    Constructs(Start(), before, 1);
    NoFingerprint();
    hide Fingerprint, Construction;
  }

  lemma OnlyF()
    ensures CurrentEntries(Start()) == [Entry("f", OLD)]
  {
    assert EntriesOf(TWO, map["f" := "rev_A"], ["f"], 0) == [];
    assert EntryOf(TWO, map["f" := "rev_A"], "f") == [Entry("f", OLD)];
  }

  predicate ServesDeleted(before: seq<Event>) {
    ServesStale(Start(), before, 1)
    && var u := Run(Start(), before + Construction(1, 0)); u.live == NOTHING && u.cache.value.snapshot.functions == [Entry("f", OLD)]
  }

  /** A project deleted between an invalidation and the next construction is served on. */
  lemma DeletedProjectIsServedOn()
    ensures exists before :: ServesDeleted(before)
  {
    ConstructedOnce();
    hide Run, ValidRun;
    OneMoreEvent(Start(), ONCE_CONSTRUCTED, Invalidate);
    DeletedAfter(ONCE_CONSTRUCTED + [Invalidate], Run(Start(), ONCE_CONSTRUCTED).cache.value.snapshot);
  }

  lemma DeletedAfter(marked: seq<Event>, snapshot: Snapshot)
    requires ValidRun(Start(), marked) && snapshot.functions == [Entry("f", OLD)]
    requires var u := Run(Start(), marked); u.cache.Some? && u.cache.value.fingerprint == "" && u.cache.value.snapshot == snapshot
    ensures ServesDeleted(marked + [Delete])
  {
    hide Run, ValidRun;
    OneMoreEvent(Start(), marked, Delete);
    Constructs(Start(), marked + [Delete], 1);
    NoFingerprint();
    hide Fingerprint, Construction;
  }

  predicate ServesOldRoutes(before: seq<Event>) {
    var events := before + Construction(1, 1);
    ValidRun(Start(), events)
    && var u := Run(Start(), events); CurrentEntries(u) == [Entry("f", OLD)] && u.live.routes == None && u.cache.Some? && ADDED == Some(u.cache.value.snapshot.routes)
  }

  /** The routes configured, then a first version made with them. */
  const ONCE_CONFIGURED: seq<Event> := [] + [Configure(ADDED, None)] + Construction(0, 1)

  lemma ConfiguredOnce()
    ensures ValidRun(Start(), ONCE_CONFIGURED)
    ensures var cache := Run(Start(), ONCE_CONFIGURED).cache;
      cache.Some? && Some(cache.value.snapshot.routes) == ADDED && cache.value.fingerprint == Fingerprint([Entry("f", OLD)])
    ensures Run(Start(), ONCE_CONFIGURED).catalog == TWO
  {
    var s := Start();
    NothingYet(s);
    OneMoreEvent(s, [], Configure(ADDED, None));
    Constructs(s, [] + [Configure(ADDED, None)], 0);
    OnlyF();
    hide Run, ValidRun, EntriesOf, Fingerprint, Construction;
    assert s.(live := s.live.(routes := ADDED)).live.active == s.live.active;
  }

  /** A project deleted and restored with the same revision is served with the routes it had
      before the deletion, until the restoration invalidates. */
  lemma RestoredProjectKeepsOldRoutes()
    ensures exists before :: ServesOldRoutes(before)
  {
    ConfiguredOnce();
    hide Run, ValidRun, Fingerprint, Construction;
    var s := Start();
    var restored := Deployment(["f"], map["f" := "rev_A"]);
    OneMoreEvent(s, ONCE_CONFIGURED, Delete);
    OneMoreEvent(s, ONCE_CONFIGURED + [Delete], restored);
    RestoredAfter(ONCE_CONFIGURED + [Delete] + [restored], Run(s, ONCE_CONFIGURED).cache);
  }

  lemma RestoredAfter(before: seq<Event>, cache: Option<ProjectState>)
    requires ValidRun(Start(), before) && Run(Start(), before).cache == cache
    requires cache.Some? && cache.value.snapshot.routes == ADDED.value && cache.value.fingerprint == Fingerprint([Entry("f", OLD)])
    requires var u := Run(Start(), before); u.live == Start().live && u.catalog == TWO
    ensures ServesOldRoutes(before)
  {
    hide Run, ValidRun;
    Constructs(Start(), before, 1);
    OnlyF();
    assert CurrentEntries(Run(Start(), before)) == CurrentEntries(Start());
    hide Fingerprint, Construction;
  }
}

/** What the snapshot protocol promises the runtime, and where it stops. */
module SnapshotFreshness {
  import opened Options
  import opened Ulid
  import opened StoreKeys
  import opened EntityTags
  import opened SnapshotProtocol

  // ---------------------------------------------------------------- versions

  lemma {:induction false} RunAppends(s: System, before: seq<Event>, after: seq<Event>)
    requires ValidRun(s, before + after)
    ensures ValidRun(s, before) && ValidRun(Run(s, before), after) && Run(Run(s, before), after) == Run(s, before + after)
    decreases |after|
  {
    if after == [] {
      assert before + after == before;
    } else {
      var shorter, e := after[..|after| - 1], after[|after| - 1];
      assert (before + after)[..|before + after| - 1] == before + shorter;
      RunAppends(s, before, shorter);
    }
  }

  lemma RuntimeMovesForward(s: System, e: Event)
    requires Inv(s) && Enabled(s, e)
    ensures s.runtime.Some? ==> Step(s, e).runtime.Some? && s.runtime.value.version <= Step(s, e).runtime.value.version
  {
  }

  lemma {:induction false} RuntimeNeverGoesBack(s: System, events: seq<Event>)
    requires Inv(s) && ValidRun(s, events) && AllOrderly(events)
    ensures s.runtime.Some? ==> Run(s, events).runtime.Some? && s.runtime.value.version <= Run(s, events).runtime.value.version
    decreases |events|
  {
    hide Step, Inv, Enabled, Orderly;
    if events != [] {
      var before := events[..|events| - 1];
      assert forall i :: 0 <= i < |before| ==> before[i] == events[i];
      RuntimeNeverGoesBack(s, before);
      RunKeepsInv(s, before);
      RuntimeMovesForward(Run(s, before), events[|events| - 1]);
    }
  }

  /** Between two moments: the runtime's version has not decreased nor passed the control
      plane's, and one version is one content, wherever it is seen. */
  predicate VersionsAgree(earlier: System, later: System) {
    (earlier.runtime.Some? ==>
      later.runtime.Some? && later.cache.Some?
      && earlier.runtime.value.version <= later.runtime.value.version <= later.cache.value.currentVersion
      && (earlier.runtime.value.version == later.runtime.value.version ==> earlier.runtime == later.runtime)
      && (earlier.runtime.value.version == later.cache.value.snapshot.version ==> earlier.runtime == Some(later.cache.value.snapshot)))
    && (earlier.cache.Some? && later.cache.Some? && earlier.cache.value.snapshot.version == later.cache.value.snapshot.version ==>
      earlier.cache.value.snapshot == later.cache.value.snapshot)
  }

  lemma GrowthAgrees(earlier: System, later: System)
    requires Inv(earlier) && Inv(later) && earlier.made <= later.made
    requires earlier.runtime.Some? ==> later.runtime.Some? && earlier.runtime.value.version <= later.runtime.value.version
    ensures VersionsAgree(earlier, later)
  {
    hide GoodEntries, Fingerprint, RoutesFor, BuildsSound, CatalogDelimiterFree;
    assert forall i :: 0 <= i < |earlier.made| ==> earlier.made[i] == later.made[i];
  }

  /** In every run, between any two of its moments, versions agree. */
  lemma VersionsDecideContent(s: System, before: seq<Event>, after: seq<Event>)
    requires Fresh(s) && CatalogDelimiterFree(s.catalog) && Ascending(s.live.names)
    requires ValidRun(s, before + after) && AllOrderly(before + after)
    ensures ValidRun(s, before) && VersionsAgree(Run(s, before), Run(s, before + after))
  {
    FreshIsSound(s);
    OrderlyParts(before, after);
    RunAppends(s, before, after);
    hide *;
    RunKeepsInv(s, before);
    RunKeepsInv(Run(s, before), after);
    RuntimeNeverGoesBack(Run(s, before), after);
    GrowthAgrees(Run(s, before), Run(s, before + after));
  }

  lemma OrderlyParts(before: seq<Event>, after: seq<Event>)
    requires AllOrderly(before + after)
    ensures AllOrderly(before) && AllOrderly(after)
  {
    hide Orderly;
    assert forall i :: 0 <= i < |before| ==> before[i] == (before + after)[i];
    assert forall i :: 0 <= i < |after| ==> after[i] == (before + after)[|before| + i];
  }

  // ---------------------------------------------------------------- freshness

  /** The snapshot shows the revisions, routes and metadata of now. */
  predicate IsCurrent(s: System, sn: Snapshot) {
    sn.functions == CurrentEntries(s) && sn.routes == RoutesFor(s.live.routes, sn.functions) && sn.meta == s.live.meta
  }

  /** The same, read off the project's state. */
  ghost predicate ServesNow(s: System, sn: Snapshot) {
    ListsExactly(s, sn.functions) && InOrder(sn.functions) && RoutesServe(s.live.routes, sn.functions, sn.routes) && sn.meta == s.live.meta
  }

  lemma CurrentServesNow(s: System, sn: Snapshot)
    requires Inv(s) && IsCurrent(s, sn)
    ensures ServesNow(s, sn)
  {
    EntriesListExactly(s, |s.live.names|);
    CurrentIsGood(s, |s.live.names|);
    assert s.live.names[..|s.live.names|] == s.live.names;
    hide EntriesOf, InOrder, MadeSound, CacheSound, BuildsSound, RuntimeSound, CatalogDelimiterFree;
  }

  /** Nothing changes the project, and the poll under way is neither failed nor repeated.
      Invalidations, and constructions begun before, may still come. */
  predicate Quiet(e: Event) {
    !e.Deployment? && !e.Delete? && !e.Configure? && !e.PollBegins? && !e.PollFails?
  }

  predicate AllQuiet(events: seq<Event>) { forall i :: 0 <= i < |events| ==> Quiet(events[i]) }

  /** How far a poll begun after the last change has come, and that it is right so far. */
  predicate OnItsWay(s: System) {
    match s.poll
    case Asking(_, b) => b.names == s.live.names && b.next <= |b.names| && b.got == EntriesOf(s.catalog, s.live.active, s.live.names, b.next)
    case Answered(_, NotModified) => s.runtime.Some? && IsCurrent(s, s.runtime.value)
    case Answered(_, Body(sn)) => IsCurrent(s, sn) && (s.runtime.Some? ==> sn.version > s.runtime.value.version)
    case NoPoll => s.runtime.Some? && IsCurrent(s, s.runtime.value)
  }

  /** Ending a construction with the current, non-empty entries yields a current snapshot. */
  lemma EndedIsCurrent(s: System)
    requires Inv(s) && RoutesSound(s) && CurrentEntries(s) != []
    ensures var s' := Ended(s, CurrentEntries(s)); s'.cache.Some? && IsCurrent(s', s'.cache.value.snapshot)
  {
    var es := CurrentEntries(s);
    CurrentIsGood(s, |s.live.names|);
    EmptyFingerprintIff(s.catalog, es);
    if s.cache.Some? {
      FingerprintIsExact(s.catalog, s.cache.value.snapshot.functions, es);
    }
    hide Fingerprint, EntriesOf, GoodEntries, BuildsSound, RuntimeSound, CatalogDelimiterFree;
  }

  lemma QuietStepStaysOnItsWay(s: System, e: Event)
    requires Inv(s) && RoutesSound(s) && Enabled(s, e) && Quiet(e) && OnItsWay(s) && CurrentEntries(s) != []
    ensures OnItsWay(Step(s, e)) && CurrentEntries(Step(s, e)) == CurrentEntries(s)
  {
    LiveStays(s, e);
    hide Inv, EntriesOf;
    match e
    case PollIsAnswered => AnswerStaysOnItsWay(s);
    case BuildEnds(b) =>
      EndedRest(s, s.builds[b].got);
      hide Ended, Answer, RoutesFor, RoutesSound;
    case PollReads => ReadStaysOnItsWay(s);
    case _ => hide RoutesFor, RoutesSound, Ended, Answer, ReadOne;
  }

  lemma AnswerStaysOnItsWay(s: System)
    requires Inv(s) && RoutesSound(s) && Enabled(s, PollIsAnswered) && OnItsWay(s) && CurrentEntries(s) != []
    ensures OnItsWay(Step(s, PollIsAnswered))
  {
    EndedIsCurrent(s);
    EndedRest(s, s.poll.build.got);
    EndingIsSound(s);
    hide EntriesOf, Ended, Inv, Answer, RoutesFor, RoutesSound;
  }

  lemma ReadStaysOnItsWay(s: System)
    requires Enabled(s, PollReads) && OnItsWay(s)
    ensures OnItsWay(Step(s, PollReads))
  {
  }

  lemma EndingIsSound(s: System)
    requires Inv(s) && Enabled(s, PollIsAnswered)
    ensures var u := Ended(s, s.poll.build.got);
      u.cache.Some?
      && var r := Answer(s.poll.have, u.cache.value.snapshot);
         (r.NotModified? ==> s.runtime == Some(u.cache.value.snapshot))
         && (r.Body? ==> r.snapshot == u.cache.value.snapshot && (s.runtime.Some? ==> r.snapshot.version > s.runtime.value.version))
  {
    assert GoodEntries(s.catalog, s.poll.build.got) by { assert GoodBuild(s.catalog, s.poll.build); }
    EndedKeepsInv(s, s.poll.build.got);
    EndedRest(s, s.poll.build.got);
    hide Ended, Answer, MadeSound, CacheSound, BuildsSound, CatalogDelimiterFree;
    AnswerIsSound(Ended(s, s.poll.build.got));
  }

  lemma {:induction false} QuietRunStaysOnItsWay(s: System, events: seq<Event>)
    requires Inv(s) && RoutesSound(s) && ValidRun(s, events) && AllQuiet(events) && OnItsWay(s) && CurrentEntries(s) != []
    ensures Inv(Run(s, events)) && RoutesSound(Run(s, events)) && OnItsWay(Run(s, events)) && CurrentEntries(Run(s, events)) == CurrentEntries(s)
    decreases |events|
  {
    hide Step, Inv, Enabled, OnItsWay, CurrentEntries, RoutesSound;
    if events != [] {
      var before, e := events[..|events| - 1], events[|events| - 1];
      assert forall i :: 0 <= i < |before| ==> before[i] == events[i];
      QuietRunStaysOnItsWay(s, before);
      QuietStepStaysOnItsWay(Run(s, before), e);
      StepKeepsInv(Run(s, before), e);
      StepKeepsRoutes(Run(s, before), e);
    }
  }

  // ---------------------------------------------------------------- routes

  /** No deletion since the last invalidation; every handler that fills a project again ends in one. */
  predicate DeletionsInvalidated(events: seq<Event>) {
    events == []
    || var e := events[|events| - 1]; e.Configure? || e.Invalidate? || (!e.Delete? && DeletionsInvalidated(events[..|events| - 1]))
  }

  lemma StepKeepsRoutes(s: System, e: Event)
    requires Enabled(s, e)
    ensures (RoutesSound(s) && !e.Delete?) || e.Configure? || e.Invalidate? ==> RoutesSound(Step(s, e))
  {
    hide Fingerprint, RoutesFor, Answer, Accepted, ReadOne;
  }

  lemma {:induction false} RunKeepsRoutes(s: System, events: seq<Event>)
    requires ValidRun(s, events) && RoutesSound(s) && DeletionsInvalidated(events)
    ensures RoutesSound(Run(s, events))
    decreases |events|
  {
    hide RoutesSound, Step, Enabled;
    if events != [] {
      var before, e := events[..|events| - 1], events[|events| - 1];
      if !e.Configure? && !e.Invalidate? { RunKeepsRoutes(s, before); }
      StepKeepsRoutes(Run(s, before), e);
    }
  }

  /** A poll begun after the last change of a project with an active revision, once its
      answer has arrived, new or not modified, leaves the runtime with the project as it is. */
  lemma PollAfterTheLastChangeIsCurrent(s: System, before: seq<Event>, after: seq<Event>)
    requires Fresh(s) && CatalogDelimiterFree(s.catalog) && Ascending(s.live.names)
    requires AllOrderly(before) && DeletionsInvalidated(before) && AllQuiet(after) && ValidRun(s, before + [PollBegins] + after)
    requires var s' := Run(s, before + [PollBegins] + after); CurrentEntries(s') != [] && s'.poll.NoPoll?
    ensures var s' := Run(s, before + [PollBegins] + after);
      s'.runtime.Some? && IsCurrent(s', s'.runtime.value) && ServesNow(s', s'.runtime.value)
  {
    RunAppends(s, before + [PollBegins], after);
    RunAppends(s, before, [PollBegins]);
    FreshIsSound(s);
    RunKeepsInv(s, before);
    RunKeepsRoutes(s, before);
    var s1 := Run(s, before);
    assert [PollBegins][..0] == [];
    assert Enabled(s1, PollBegins) && Run(s1, [PollBegins]) == Step(s1, PollBegins);
    StepKeepsInv(s1, PollBegins);
    StepKeepsRoutes(s1, PollBegins);
    var s2 := Step(s1, PollBegins);
    EntriesStayThroughQuiet(s2, after);
    QuietRunStaysOnItsWay(s2, after);
    var s' := Run(s2, after);
    hide Run, ValidRun, Inv, ServesNow, Step, Enabled, CurrentEntries;
    CurrentServesNow(s', s'.runtime.value);
  }

  lemma {:induction false} EntriesStayThroughQuiet(s: System, events: seq<Event>)
    requires ValidRun(s, events) && AllQuiet(events)
    ensures CurrentEntries(Run(s, events)) == CurrentEntries(s)
    decreases |events|
  {
    if events != [] {
      var before, e := events[..|events| - 1], events[|events| - 1];
      assert forall i :: 0 <= i < |before| ==> before[i] == events[i];
      EntriesStayThroughQuiet(s, before);
      LiveStays(Run(s, before), e);
    }
  }

  lemma LiveStays(s: System, e: Event)
    requires Enabled(s, e) && Quiet(e)
    ensures Step(s, e).live == s.live && Step(s, e).catalog == s.catalog
  {
  }

  // ---------------------------------------------------------------- where it stops

  lemma OneMoreEvent(s: System, events: seq<Event>, e: Event)
    requires ValidRun(s, events) && Enabled(Run(s, events), e)
    ensures ValidRun(s, events + [e]) && Run(s, events + [e]) == Step(Run(s, events), e)
  {
    assert (events + [e])[..|events|] == events;
  }

  const OLD: Rev := Rev("rev_A", "sha256:a", "Deployed", "")
  const NEW: Rev := Rev("rev_B", "sha256:b", "Deployed", "")
  const TWO: Catalog := map[("f", "rev_A") := OLD, ("f", "rev_B") := NEW]

  function Start(): System {
    System(TWO, Live(["f"], map["f" := "rev_A"], None, None), None, [], map[], None, NoPoll)
  }

  /** What the theorems ask of a beginning holds of this one, and such events are in order. */
  lemma StartFits()
    ensures Fresh(Start()) && CatalogDelimiterFree(Start().catalog) && Ascending(Start().live.names)
    ensures AllOrderly([Deployment(["f"], map["f" := "rev_B"]), Delete, Configure(None, None), Invalidate])
  {
    TwoAreClean();
    hide CatalogDelimiterFree, StringLe;
  }

  lemma TwoAreClean()
    ensures CatalogDelimiterFree(TWO)
  {
    assert DelimiterFree(Entry("f", OLD)) && DelimiterFree(Entry("f", NEW));
    hide DelimiterFree;
  }

  /** Each change of the project sets what it says and leaves the rest. */
  lemma ChangesSet(s: System, names: seq<string>, active: map<string, string>, routes: Option<seq<Route>>, meta: Option<string>)
    ensures Step(s, Deployment(names, active)).live == Live(names, active, s.live.routes, s.live.meta)
    ensures Step(s, Configure(routes, meta)).live == Live(s.live.names, s.live.active, routes, meta)
    ensures Step(s, Delete).live == Live([], map[], None, None)
    ensures Step(s, Invalidate).live == s.live
    ensures Step(s, Deployment(names, active)).cache == s.cache == Step(s, Delete).cache
    ensures s.cache.Some? ==>
      Step(s, Invalidate).cache == Some(ProjectState(s.cache.value.currentVersion, s.cache.value.snapshot, "")) == Step(s, Configure(routes, meta)).cache
  {
  }

  predicate PublishesOldAfterNew(events: seq<Event>) {
    ValidRun(Start(), events)
    && var made := Run(Start(), events).made;
       |made| == 2 && made[0].functions == [Entry("f", NEW)] && made[1].functions == [Entry("f", OLD)]
       && Run(Start(), events).live.active == map["f" := "rev_B"]
  }

  /** A higher version need not be more recent: a construction that read before a
      deployment can end after the deployment's own and publish the old revision again.
      The next construction repairs it. */
  lemma LateConstructionPublishesOldRevision()
    ensures exists events :: PublishesOldAfterNew(events)
  {
    hide Run, ValidRun, Fingerprint;
    var s0 := Start();
    var older, newer := [Entry("f", OLD)], [Entry("f", NEW)];
    Differ();
    NothingYet(s0);
    OneMoreEvent(s0, [], BuildBegins(0));
    var es1 := [] + [BuildBegins(0)];
    OneMoreEvent(s0, es1, BuildReads(0));
    ReadsTheOnly(Run(s0, es1), OLD);
    var es2 := es1 + [BuildReads(0)];
    assert Run(s0, es2).builds == map[0 := Build(["f"], 1, older)];
    OneMoreEvent(s0, es2, Deployment(["f"], map["f" := "rev_B"]));
    var es3 := es2 + [Deployment(["f"], map["f" := "rev_B"])];
    OneMoreEvent(s0, es3, BuildBegins(1));
    var es4 := es3 + [BuildBegins(1)];
    OneMoreEvent(s0, es4, BuildReads(1));
    ReadsTheOnly(Run(s0, es4), NEW);
    var es5 := es4 + [BuildReads(1)];
    assert Run(s0, es5).builds == map[0 := Build(["f"], 1, older), 1 := Build(["f"], 1, newer)];
    EndBoth(es5);
  }

  lemma ReadsTheOnly(s: System, rev: Rev)
    requires s.catalog == TWO && rev in {OLD, NEW} && s.live.active == map["f" := rev.id]
    ensures ReadOne(s, Build(["f"], 0, [])) == Build(["f"], 1, [Entry("f", rev)])
  {
  }

  lemma NothingYet(s: System)
    ensures ValidRun(s, []) && Run(s, []) == s
  {
  }

  lemma Differ()
    ensures Fingerprint([Entry("f", OLD)]) != Fingerprint([Entry("f", NEW)])
  {
    SingleFingerprint(Entry("f", OLD));
    SingleFingerprint(Entry("f", NEW));
    hide Fingerprint;
    assert Part(Entry("f", OLD))[6] != Part(Entry("f", NEW))[6];
  }

  lemma SingleFingerprint(e: Entry)
    ensures Fingerprint([e]) == Part(e)
  {
    assert Parts([e]) == [Part(e)] && [Part(e)][1..] == [];
    assert Sorted([Part(e)]) == [Part(e)];
  }

  lemma EndBoth(events: seq<Event>)
    requires ValidRun(Start(), events)
    requires var s := Run(Start(), events);
      s.builds == map[0 := Build(["f"], 1, [Entry("f", OLD)]), 1 := Build(["f"], 1, [Entry("f", NEW)])]
      && s.cache.None? && s.made == [] && s.live.active == map["f" := "rev_B"]
    ensures exists all :: PublishesOldAfterNew(all)
  {
    hide Run, ValidRun, Fingerprint;
    Differ();
    var s0 := Start();
    OneMoreEvent(s0, events, BuildEnds(1));
    var es1 := events + [BuildEnds(1)];
    assert 0 in Run(s0, es1).builds && Run(s0, es1).builds[0] == Build(["f"], 1, [Entry("f", OLD)]);
    OneMoreEvent(s0, es1, BuildEnds(0));
    assert PublishesOldAfterNew(es1 + [BuildEnds(0)]);
  }
}

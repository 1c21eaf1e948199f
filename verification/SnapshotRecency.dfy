/**
  How recent snapshot versions are.  A construction reads each function's pointer at its
  own moment; `ReadingsOf` recovers these moments, as positions in the run, for every
  construction under way and every version made.
*/
module SnapshotRecency {
  import opened Options
  import opened Ulid
  import opened SnapshotProtocol

  /** When a construction began and when it read each function's pointer. */
  datatype Reads = Reads(begun: nat, at: map<string, nat>)

  datatype Readings = Readings(builds: map<nat, Reads>, poll: Reads, made: seq<Reads>)

  /** A function that was not listed has been seen as it was at the beginning. */
  function PositionOf(r: Reads, fn: string): nat { if fn in r.at then r.at[fn] else r.begun }

  function ReadingsOf(s: System, events: seq<Event>): Readings
    requires ValidRun(s, events)
    decreases |events|
  {
    if events == [] then Readings(map[], Reads(0, map[]), [])
    else
      var n := |events| - 1;
      var before, u := ReadingsOf(s, events[..n]), Run(s, events[..n]);
      var isNew := |Run(s, events).made| > |u.made|;
      match events[n]
      case BuildBegins(b) => before.(builds := before.builds[b := Reads(n, map[])])
      case BuildReads(b) =>
        if b in before.builds then before.(builds := before.builds[b := ReadAt(before.builds[b], u.builds[b], n)]) else before
      case BuildEnds(b) =>
        before.(builds := before.builds - {b}, made := if isNew && b in before.builds then before.made + [before.builds[b]] else before.made)
      case PollBegins => before.(poll := Reads(n, map[]))
      case PollReads => before.(poll := ReadAt(before.poll, u.poll.build, n))
      case PollIsAnswered => before.(made := if isNew then before.made + [before.poll] else before.made)
      case _ => before
  }

  function ReadAt(r: Reads, b: Build, n: nat): Reads
    requires b.next < |b.names|
  {
    r.(at := r.at[b.names[b.next] := n])
  }

  // ---------------------------------------------------------------- pointers over time

  /** The active revisions after the first `i` events. */
  function ActiveAt(s: System, events: seq<Event>, i: nat): map<string, string>
    requires i <= |events|
  {
    if i == 0 then s.live.active
    else
      match events[i - 1]
      case Deployment(_, active) => active
      case Delete => map[]
      case _ => ActiveAt(s, events, i - 1)
  }

  function EntryAt(s: System, events: seq<Event>, i: nat, fn: string): seq<Entry>
    requires i <= |events|
  {
    EntryOf(s.catalog, ActiveAt(s, events, i), fn)
  }

  /** Event `k` changes the function's active revision. */
  predicate IsChange(s: System, events: seq<Event>, k: nat, fn: string)
    requires k < |events|
  {
    EntryAt(s, events, k, fn) != EntryAt(s, events, k + 1, fn)
  }

  /** How often the function's active revision changed in the first `i` events. */
  function Changes(s: System, events: seq<Event>, i: nat, fn: string): nat
    requires i <= |events|
  {
    if i == 0 then 0 else Changes(s, events, i - 1, fn) + if IsChange(s, events, i - 1, fn) then 1 else 0
  }

  lemma {:induction false} ChangesBetweenIff(s: System, events: seq<Event>, p: nat, q: nat, fn: string)
    requires p <= q <= |events|
    ensures Changes(s, events, p, fn) <= Changes(s, events, q, fn)
    ensures Changes(s, events, p, fn) < Changes(s, events, q, fn) <==> exists k :: p <= k < q && IsChange(s, events, k, fn)
  {
    hide IsChange;
    if p < q { ChangesBetweenIff(s, events, p, q - 1, fn); }
  }

  lemma {:induction false} ActiveIsStable(s: System, events: seq<Event>, e: Event, i: nat)
    requires i <= |events|
    ensures ActiveAt(s, events + [e], i) == ActiveAt(s, events, i)
  {
    if i > 0 { ActiveIsStable(s, events, e, i - 1); }
  }

  lemma {:induction false} RunIsActiveAt(s: System, events: seq<Event>)
    requires ValidRun(s, events)
    ensures Run(s, events).live.active == ActiveAt(s, events, |events|) && Run(s, events).catalog == s.catalog
    decreases |events|
  {
    if events != [] {
      var before, e := events[..|events| - 1], events[|events| - 1];
      RunIsActiveAt(s, before);
      assert before + [e] == events;
      ActiveIsStable(s, before, e, |before|);
      EventLeaves(Run(s, before), e);
    }
  }

  lemma EventLeaves(s: System, e: Event)
    requires Enabled(s, e)
    ensures Step(s, e).live.active == (if e.Deployment? then e.active else if e.Delete? then map[] else s.live.active) && Step(s, e).catalog == s.catalog
  {
    hide Finished, Answer, Accepted;
  }

  // ---------------------------------------------------------------- versions show what was read

  /** Functions with an active revision are listed. */
  predicate ListsActive(names: seq<string>, active: map<string, string>) { forall fn :: fn in active ==> fn in names }

  predicate AllListed(events: seq<Event>) {
    forall i :: 0 <= i < |events| && events[i].Deployment? ==> ListsActive(events[i].names, events[i].active)
  }

  /** Exactly the functions' active revisions at the moments they were read. */
  ghost predicate Shows(s: System, events: seq<Event>, es: seq<Entry>, r: Reads) {
    InTime(events, r)
    && forall fn, rev :: Entry(fn, rev) in es <==> EntryAt(s, events, PositionOf(r, fn), fn) == [Entry(fn, rev)]
  }

  ghost predicate InTime(events: seq<Event>, r: Reads) { r.begun <= |events| && forall fn :: fn in r.at ==> r.at[fn] <= |events| }

  /** So far the construction has read its first `next` names. */
  ghost predicate ShowsSoFar(s: System, events: seq<Event>, b: Build, r: Reads) {
    b.next <= |b.names| && InTime(events, r) && (forall fn :: fn in r.at <==> fn in b.names[..b.next])
    && (forall fn :: fn !in b.names ==> EntryAt(s, events, r.begun, fn) == [])
    && forall fn, rev :: Entry(fn, rev) in b.got <==> fn in r.at && EntryAt(s, events, r.at[fn], fn) == [Entry(fn, rev)]
  }

  ghost predicate BuildsTraced(s: System, events: seq<Event>)
    requires ValidRun(s, events)
  {
    var u, r := Run(s, events), ReadingsOf(s, events);
    (forall b :: b in u.builds ==> b in r.builds && ShowsSoFar(s, events, u.builds[b], r.builds[b]))
    && (u.poll.Asking? ==> ShowsSoFar(s, events, u.poll.build, r.poll))
  }

  ghost predicate MadeTraced(s: System, events: seq<Event>)
    requires ValidRun(s, events)
  {
    var u, r := Run(s, events), ReadingsOf(s, events);
    |r.made| == |u.made| && forall n :: 0 <= n < |u.made| ==> Shows(s, events, u.made[n].functions, r.made[n])
  }

  lemma EntryIsStable(s: System, events: seq<Event>, e: Event)
    ensures forall i, fn :: 0 <= i <= |events| ==> EntryAt(s, events + [e], i, fn) == EntryAt(s, events, i, fn)
  {
    forall i | 0 <= i <= |events| ensures ActiveAt(s, events + [e], i) == ActiveAt(s, events, i) {
      ActiveIsStable(s, events, e, i);
    }
  }

  lemma ShowsLater(s: System, events: seq<Event>, e: Event, es: seq<Entry>, r: Reads)
    requires Shows(s, events, es, r)
    ensures Shows(s, events + [e], es, r)
  {
    hide EntryAt;
    EntryIsStable(s, events, e);
  }

  lemma ShowsSoFarLater(s: System, events: seq<Event>, e: Event, b: Build, r: Reads)
    requires ShowsSoFar(s, events, b, r)
    ensures ShowsSoFar(s, events + [e], b, r)
  {
    hide EntryAt;
    EntryIsStable(s, events, e);
  }

  lemma BeganShows(s: System, events: seq<Event>, e: Event, u: System)
    requires u.live.active == ActiveAt(s, events, |events|) && ListsActive(u.live.names, u.live.active)
    ensures ShowsSoFar(s, events + [e], Began(u.live), Reads(|events|, map[]))
  {
    ActiveIsStable(s, events, e, |events|);
  }

  lemma ReadShows(s: System, events: seq<Event>, e: Event, u: System, b: Build, r: Reads)
    requires ShowsSoFar(s, events, b, r) && b.next < |b.names| && Ascending(b.names)
    requires u.live.active == ActiveAt(s, events, |events|) && u.catalog == s.catalog
    ensures ShowsSoFar(s, events + [e], ReadOne(u, b), ReadAt(r, b, |events|))
  {
    ShowsSoFarLater(s, events, e, b, r);
    ActiveIsStable(s, events, e, |events|);
    NotYetRead(b);
    OnlyItsOwn(u, b.names[b.next]);
    assert EntryOf(u.catalog, u.live.active, b.names[b.next]) == EntryAt(s, events + [e], |events|, b.names[b.next]);
    hide ShowsSoFar, EntryAt, EntryOf, Ascending;
    OneMoreShown(s, events + [e], b, r, |events|, EntryOf(u.catalog, u.live.active, b.names[b.next]));
  }

  lemma OneMoreShown(s: System, events: seq<Event>, b: Build, r: Reads, n: nat, more: seq<Entry>)
    requires ShowsSoFar(s, events, b, r) && b.next < |b.names| && b.names[b.next] !in b.names[..b.next] && n <= |events|
    requires more == EntryAt(s, events, n, b.names[b.next]) && (more == [] || (|more| == 1 && more[0].fn == b.names[b.next]))
    ensures ShowsSoFar(s, events, b.(next := b.next + 1, got := b.got + more), ReadAt(r, b, n))
  {
    hide EntryAt;
    assert b.names[..b.next + 1] == b.names[..b.next] + [b.names[b.next]];
  }

  lemma NotYetRead(b: Build)
    requires Ascending(b.names) && b.next < |b.names|
    ensures b.names[b.next] !in b.names[..b.next]
  {
    hide StringLe;
  }

  lemma OnlyItsOwn(u: System, name: string)
    ensures var es := EntryOf(u.catalog, u.live.active, name); es == [] || (|es| == 1 && es[0].fn == name)
  {
  }

  lemma CompleteShows(s: System, events: seq<Event>, b: Build, r: Reads)
    requires ShowsSoFar(s, events, b, r) && Complete(b)
    ensures Shows(s, events, b.got, r)
  {
    hide EntryAt;
    assert b.names[..b.next] == b.names;
  }

  // ---------------------------------------------------------------- every run

  /** The last event of a run, seen from the state before it. */
  lemma LastEvent(s: System, before: seq<Event>, e: Event)
    requires ValidRun(s, before) && Enabled(Run(s, before), e)
    ensures ValidRun(s, before + [e]) && Run(s, before + [e]) == Step(Run(s, before), e)
  {
    assert (before + [e])[..|before|] == before;
  }

  lemma BuildStaysTraced(s: System, before: seq<Event>, e: Event, b: nat)
    requires ValidRun(s, before) && Enabled(Run(s, before), e) && Inv(Run(s, before)) && BuildsTraced(s, before)
    requires ListsActive(Run(s, before).live.names, Run(s, before).live.active) && ValidRun(s, before + [e])
    requires Run(s, before + [e]) == Step(Run(s, before), e) && b in Step(Run(s, before), e).builds
    ensures var r' := ReadingsOf(s, before + [e]);
      b in r'.builds && ShowsSoFar(s, before + [e], Step(Run(s, before), e).builds[b], r'.builds[b])
  {
    RunIsActiveAt(s, before);
    var u, r, events := Run(s, before), ReadingsOf(s, before), before + [e];
    assert events[..|before|] == before && events[|before|] == e;
    hide Run, ValidRun, ShowsSoFar, GoodBuild, MadeSound, CacheSound, RuntimeSound;
    if e == BuildBegins(b) {
      BeganShows(s, before, e, u);
    } else if e == BuildReads(b) {
      assert Ascending(u.builds[b].names) by { AscendingNames(u, u.builds[b]); }
      ReadShows(s, before, e, u, u.builds[b], r.builds[b]);
    } else {
      BuildUntouched(u, e, b);
      hide Step;
      ShowsSoFarLater(s, before, e, u.builds[b], r.builds[b]);
    }
  }

  lemma PollStaysTraced(s: System, before: seq<Event>, e: Event)
    requires ValidRun(s, before) && Enabled(Run(s, before), e) && Inv(Run(s, before)) && BuildsTraced(s, before)
    requires ListsActive(Run(s, before).live.names, Run(s, before).live.active) && ValidRun(s, before + [e])
    requires Run(s, before + [e]) == Step(Run(s, before), e) && Step(Run(s, before), e).poll.Asking?
    ensures ShowsSoFar(s, before + [e], Step(Run(s, before), e).poll.build, ReadingsOf(s, before + [e]).poll)
  {
    RunIsActiveAt(s, before);
    var u, r, events := Run(s, before), ReadingsOf(s, before), before + [e];
    assert events[..|before|] == before && events[|before|] == e;
    hide Run, ValidRun, ShowsSoFar, GoodBuild, MadeSound, CacheSound, RuntimeSound;
    if e.PollBegins? {
      BeganShows(s, before, e, u);
    } else if e.PollReads? {
      assert Ascending(u.poll.build.names) by { AscendingNames(u, u.poll.build); }
      ReadShows(s, before, e, u, u.poll.build, r.poll);
    } else {
      PollUntouched(u, e);
      hide Step;
      ShowsSoFarLater(s, before, e, u.poll.build, r.poll);
    }
  }

  lemma BuildsStayTraced(s: System, before: seq<Event>, e: Event)
    requires ValidRun(s, before) && Enabled(Run(s, before), e) && Inv(Run(s, before)) && BuildsTraced(s, before)
    requires ListsActive(Run(s, before).live.names, Run(s, before).live.active)
    ensures ValidRun(s, before + [e]) && BuildsTraced(s, before + [e])
  {
    LastEvent(s, before, e);
    hide Run, ValidRun, ShowsSoFar, Inv, Step, ListsActive, ReadingsOf;
    forall b | b in Step(Run(s, before), e).builds
      ensures b in ReadingsOf(s, before + [e]).builds
        && ShowsSoFar(s, before + [e], Step(Run(s, before), e).builds[b], ReadingsOf(s, before + [e]).builds[b])
    {
      BuildStaysTraced(s, before, e, b);
    }
    if Step(Run(s, before), e).poll.Asking? { PollStaysTraced(s, before, e); }
  }

  lemma AscendingNames(u: System, b: Build)
    requires GoodBuild(u.catalog, b)
    ensures Ascending(b.names)
  {
  }

  lemma BuildUntouched(u: System, e: Event, b: nat)
    requires Enabled(u, e) && b in Step(u, e).builds && e != BuildBegins(b) && e != BuildReads(b)
    ensures b in u.builds && Step(u, e).builds[b] == u.builds[b] && e != BuildEnds(b)
  {
    hide Finished, Answer, Accepted, ReadOne;
  }

  lemma PollUntouched(u: System, e: Event)
    requires Enabled(u, e) && Step(u, e).poll.Asking? && !e.PollBegins? && !e.PollReads?
    ensures u.poll == Step(u, e).poll && !e.PollIsAnswered?
  {
    hide Finished, Answer, Accepted, ReadOne;
  }

  lemma MadeStaysTraced(s: System, before: seq<Event>, e: Event)
    requires ValidRun(s, before) && Enabled(Run(s, before), e) && BuildsTraced(s, before) && MadeTraced(s, before)
    ensures ValidRun(s, before + [e]) && MadeTraced(s, before + [e])
  {
    LastEvent(s, before, e);
    var u, r, events := Run(s, before), ReadingsOf(s, before), before + [e];
    var u', r' := Step(u, e), ReadingsOf(s, events);
    assert events[..|before|] == before && events[|before|] == e;
    hide Run, ValidRun, Shows, ShowsSoFar;
    MadeGrows(u, e);
    if |u'.made| > |u.made| {
      if e.BuildEnds? {
        CompleteShows(s, before, u.builds[e.b], r.builds[e.b]);
      } else {
        CompleteShows(s, before, u.poll.build, r.poll);
      }
    }
    forall n | 0 <= n < |u'.made| ensures Shows(s, events, u'.made[n].functions, r'.made[n]) {
      ShowsLater(s, before, e, u'.made[n].functions, r'.made[n]);
    }
  }

  /** Only the end of a construction makes a version, of the entries it read. */
  lemma MadeGrows(u: System, e: Event)
    requires Enabled(u, e)
    ensures var made := Step(u, e).made;
      made == u.made
      || (|made| == |u.made| + 1 && made[..|u.made|] == u.made
          && ((e.BuildEnds? && made[|u.made|].functions == u.builds[e.b].got) || (e.PollIsAnswered? && made[|u.made|].functions == u.poll.build.got)))
  {
    hide Answer, Accepted, ReadOne, RoutesFor, Fingerprint;
  }

  lemma {:induction false} ListedStays(s: System, events: seq<Event>)
    requires ValidRun(s, events) && AllListed(events) && ListsActive(s.live.names, s.live.active)
    ensures ListsActive(Run(s, events).live.names, Run(s, events).live.active)
    decreases |events|
  {
    if events != [] {
      var before := events[..|events| - 1];
      assert forall i :: 0 <= i < |before| ==> before[i] == events[i];
      ListedStays(s, before);
      NamesStay(Run(s, before), events[|events| - 1]);
    }
  }

  lemma NamesStay(u: System, e: Event)
    requires Enabled(u, e)
    ensures e.Delete? ==> Step(u, e).live == NOTHING
    ensures e.Deployment? || e.Delete? || (Step(u, e).live.names == u.live.names && Step(u, e).live.active == u.live.active)
  {
    hide Finished, Answer, Accepted, ReadOne;
  }

  lemma {:induction false} RunIsTraced(s: System, events: seq<Event>)
    requires Fresh(s) && CatalogDelimiterFree(s.catalog) && Ascending(s.live.names) && ListsActive(s.live.names, s.live.active)
    requires ValidRun(s, events) && AllOrderly(events) && AllListed(events)
    ensures BuildsTraced(s, events) && MadeTraced(s, events)
    decreases |events|
  {
    if events != [] {
      var before, e := events[..|events| - 1], events[|events| - 1];
      assert events == before + [e] && forall i :: 0 <= i < |before| ==> before[i] == events[i];
      RunIsTraced(s, before);
      FreshIsSound(s);
      RunKeepsInv(s, before);
      ListedStays(s, before);
      hide BuildsTraced, MadeTraced, Inv, Run, Enabled;
      BuildsStayTraced(s, before, e);
      MadeStaysTraced(s, before, e);
    }
  }

  // ---------------------------------------------------------------- main result

  /** For every function the later construction saw at least the changes the earlier one saw. */
  ghost predicate NotOlder(s: System, events: seq<Event>, later: Reads, earlier: Reads)
    requires InTime(events, later) && InTime(events, earlier)
  {
    forall fn :: Changes(s, events, PositionOf(later, fn), fn) >= Changes(s, events, PositionOf(earlier, fn), fn)
  }

  /** The later construction read the function's pointer before a change the earlier one saw. */
  ghost predicate MissesAChange(s: System, events: seq<Event>, later: Reads, earlier: Reads, fn: string)
    requires InTime(events, later) && InTime(events, earlier)
  {
    exists k :: PositionOf(later, fn) <= k < PositionOf(earlier, fn) && IsChange(s, events, k, fn)
  }

  ghost predicate MissesNone(s: System, events: seq<Event>, later: Reads, earlier: Reads)
    requires InTime(events, later) && InTime(events, earlier)
  {
    forall fn :: !MissesAChange(s, events, later, earlier, fn)
  }

  /** Every version shows exactly the active revisions at the moments its construction read
      them; and a version is not older than the one before it if and only if its construction,
      which ended later, read no pointer before a change the other one saw. */
  lemma NextVersionIsRecentIff(s: System, events: seq<Event>, n: nat)
    requires Fresh(s) && CatalogDelimiterFree(s.catalog) && Ascending(s.live.names) && ListsActive(s.live.names, s.live.active)
    requires ValidRun(s, events) && AllOrderly(events) && AllListed(events) && n + 1 < |Run(s, events).made|
    ensures var versions, moments := Run(s, events).made, ReadingsOf(s, events).made;
      |moments| == |versions| && Shows(s, events, versions[n].functions, moments[n]) && Shows(s, events, versions[n + 1].functions, moments[n + 1])
      && (NotOlder(s, events, moments[n + 1], moments[n]) <==> MissesNone(s, events, moments[n + 1], moments[n]))
  {
    RunIsTraced(s, events);
    var moments := ReadingsOf(s, events).made;
    forall fn
      ensures Changes(s, events, PositionOf(moments[n + 1], fn), fn) >= Changes(s, events, PositionOf(moments[n], fn), fn)
        <==> !MissesAChange(s, events, moments[n + 1], moments[n], fn)
    {
      var p, q := PositionOf(moments[n + 1], fn), PositionOf(moments[n], fn);
      if p <= q { ChangesBetweenIff(s, events, p, q, fn); } else { ChangesBetweenIff(s, events, q, p, fn); }
    }
  }
}

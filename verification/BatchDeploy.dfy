/**
  The CLI's batch deploy and its compensation (cli/deploy.ts): when one function of a
  batch is rejected, the functions already switched go back to the revisions that
  were active before.
*/
module BatchDeploy {
  import opened Options
  import opened Ulid
  import opened Deployment

  datatype Item = Item(name: string, artifact: Artifact)

  /** What the surroundings decide for one deploy: clock, randomness, storage, health. */
  datatype Circumstance = Circumstance(now: nat, random: Random, stored: bool, healthy: bool)

  /** Nothing of another project, nor of a function outside `names`, differs. */
  ghost predicate OnlyTouched(before: Durable, after: Durable, project: string, names: set<string>) {
    forall p: string, f: string :: p != project || f !in names ==>
      PointerOf(after.pointers, p, f) == PointerOf(before.pointers, p, f)
      && forall k: string :: RecordOf(after.revisions, p, f, k) == RecordOf(before.revisions, p, f, k)
  }

  /** Deployed records of `fn` are still there and Deployed. */
  ghost predicate DeployedRemain(before: Durable, after: Durable, project: string, fn: string) {
    forall k: string :: NamesDeployed(before, project, fn, k) ==> NamesDeployed(after, project, fn, k)
  }

  /** What one deploy does to its function: it is switched, or its pointer stays. */
  ghost predicate DeployOutcome(d: Durable, d': Durable, project: string, fn: string, r: Option<DeploymentResult>) {
    if r.Some? && r.value.state != Failed && r.value.active
    then Switched(d, d', project, fn, r.value.revisionId)
    else PointerOf(d'.pointers, project, fn) == PointerOf(d.pointers, project, fn)
  }

  lemma FinishedDeploy(s: Service, rev: Revision, healthy: bool)
    ensures var d, d' := s.durable, DeployFinished(s, rev, healthy).durable;
      OnlyTouched(d, d', rev.project, {rev.functionName})
      && DeployOutcome(d, d', rev.project, rev.functionName,
           Some(DeploymentResult(rev.id, if healthy then Deployed else Failed, healthy && TakesOver(PointerOf(d.pointers, rev.project, rev.functionName), rev.id))))
  {
    hide StringLe;
  }

  /** The identifier a deploy takes when the last timestamp was `last`. */
  function NextId(last: nat, c: Circumstance): string { "rev_" + Encode(NextTimestamp(last, c.now), c.random) }

  /** The function's active revision sorts after `id`. */
  predicate LaterActive(d: Durable, project: string, fn: string, id: string) {
    var pointer := PointerOf(d.pointers, project, fn);
    pointer.Some? && pointer.value != "" && StringLt(id, pointer.value)
  }

  /** When a deploy switches its function: its artifact is what it claims to be, its bytes could
      be stored, it is healthy, and nothing later is active. */
  predicate WillSwitch(d: Durable, project: string, item: Item, c: Circumstance, id: string) {
    ValidArtifactId(item.artifact.id) && item.artifact.id == item.artifact.computedId && item.artifact.integrity == item.artifact.computedIntegrity
    && c.stored && c.healthy && !LaterActive(d, project, item.name, id)
  }

  /** The Deployed record of this revision stands for this artifact. */
  predicate Carries(d: Durable, project: string, fn: string, id: string, a: Artifact) {
    NamesDeployed(d, project, fn, id)
    && var rev := RecordOf(d.revisions, project, fn, id).value;
       rev.artifactId == a.computedId && rev.integrity == a.computedIntegrity && rev.manifest == a.manifest
  }

  lemma TakesOverUnlessLater(d: Durable, project: string, fn: string, id: string)
    ensures TakesOver(PointerOf(d.pointers, project, fn), id) <==> !LaterActive(d, project, fn, id)
  {
    var pointer := PointerOf(d.pointers, project, fn);
    if pointer.Some? { StringLeIsTotalOrder(pointer.value, id, id); }
    hide StringLe;
  }

  /** One deploy from start to end, with no other writer.  `None` when it throws. */
  method Deploy(svc: DeploymentService, project: string, item: Item, c: Circumstance) returns (r: Option<DeploymentResult>)
    modifies svc
    ensures var id := NextId(old(svc.lastTimestamp), c);
      if WillSwitch(old(svc.View()).durable, project, item, c, id)
      then r == Some(DeploymentResult(id, Deployed, true)) && Carries(svc.View().durable, project, item.name, id, item.artifact)
           && svc.lastTimestamp == NextTimestamp(old(svc.lastTimestamp), c.now)
      else r.None? || r.value.state == Failed || !r.value.active
    ensures OnlyTouched(old(svc.View()).durable, svc.View().durable, project, {item.name})
    ensures DeployOutcome(old(svc.View()).durable, svc.View().durable, project, item.name, r)
  {
    hide StringLe, TakesOver, DeployFinished, WithRecord, WithPointer;
    var begun := svc.BeginDeploy(project, item.name, item.artifact, c.now, c.random);
    if begun.Err? || !c.stored { return None; }
    ghost var s := svc.View();
    var result := svc.FinishDeploy(begun.value, c.healthy);
    FinishedDeploy(s, begun.value, c.healthy);
    SavedRecord(s, begun.value, c.healthy);
    TakesOverUnlessLater(s.durable, project, item.name, begun.value.id);
    return Some(result);
  }

  lemma SavedRecord(s: Service, rev: Revision, healthy: bool)
    ensures RecordOf(DeployFinished(s, rev, healthy).durable.revisions, rev.project, rev.functionName, rev.id)
      == Some(rev.(state := if healthy then Deployed else Failed))
    ensures DeployFinished(s, rev, healthy).lastTimestamp == s.lastTimestamp
  {
  }

  predicate Distinct(items: seq<Item>) {
    forall i, j :: 0 <= i < j < |items| ==> items[i].name != items[j].name
  }

  function Names(items: seq<Item>): set<string> { set i | 0 <= i < |items| :: items[i].name }

  /** The function had a Deployed active revision. */
  predicate WasServing(d: Durable, project: string, fn: string) {
    var pointer := PointerOf(d.pointers, project, fn);
    pointer.Some? && pointer.value != "" && NamesDeployed(d, project, fn, pointer.value)
  }

  /** Deployed in this batch: the pointer moved to the new revision and nothing Deployed was lost. */
  ghost predicate Switched(before: Durable, now: Durable, project: string, fn: string, id: string) {
    PointerOf(now.pointers, project, fn) == Some(id) && NamesDeployed(now, project, fn, id) && DeployedRemain(before, now, project, fn)
  }

  ghost predicate AllSwitched(before: Durable, now: Durable, project: string, revisions: map<string, string>) {
    forall fn :: fn in revisions ==> Switched(before, now, project, fn, revisions[fn])
  }

  /** After its turn in the compensation loop a function is back at what it had, if that
      is Deployed; one that had nothing before, or waits for its turn, has its new revision. */
  ghost predicate Settled(before: Durable, now: Durable, project: string, fn: string, id: string, done: bool) {
    var was := PointerOf(before.pointers, project, fn);
    DeployedRemain(before, now, project, fn)
    && ((!done || was.GetOr("") == "") ==> PointerOf(now.pointers, project, fn) == Some(id))
    && ((done && was.GetOr("") != "") ==> PointerOf(now.pointers, project, fn) == if NamesDeployed(now, project, fn, was.value) then was else Some(id))
  }

  /** The compensation loop has handled exactly the functions `done`. */
  ghost predicate AllSettled(before: Durable, now: Durable, project: string, revisions: map<string, string>, done: seq<string>) {
    forall fn :: fn in revisions ==> Settled(before, now, project, fn, revisions[fn], fn in done)
  }

  /** Only functions in `revisions` may have another pointer than before. */
  ghost predicate OthersPoint(before: Durable, now: Durable, project: string, revisions: map<string, string>) {
    forall fn :: fn !in revisions ==> PointerOf(now.pointers, project, fn) == PointerOf(before.pointers, project, fn)
  }

  lemma TouchedTwice(a: Durable, b: Durable, c: Durable, project: string, names: set<string>, more: set<string>)
    requires OnlyTouched(a, b, project, names) && OnlyTouched(b, c, project, more)
    ensures OnlyTouched(a, c, project, names + more)
  {
  }

  /** What holds of a function outside `names` is as before. */
  lemma UntouchedStays(a: Durable, b: Durable, project: string, names: set<string>, fn: string)
    requires OnlyTouched(a, b, project, names) && fn !in names
    ensures PointerOf(b.pointers, project, fn) == PointerOf(a.pointers, project, fn) && DeployedRemain(a, b, project, fn)
    ensures forall id: string :: NamesDeployed(b, project, fn, id) <==> NamesDeployed(a, project, fn, id)
  {
  }

  lemma RemainsThrough(a: Durable, b: Durable, c: Durable, project: string, fn: string)
    requires DeployedRemain(a, b, project, fn) && DeployedRemain(b, c, project, fn)
    ensures DeployedRemain(a, c, project, fn)
  {
    hide NamesDeployed;
  }

  /** A switched function stays switched while another one is deployed. */
  lemma StaysSwitched(before: Durable, mid: Durable, now: Durable, project: string, fn: string, id: string, other: string)
    requires Switched(before, mid, project, fn, id) && OnlyTouched(mid, now, project, {other}) && fn != other
    ensures Switched(before, now, project, fn, id)
  {
    UntouchedStays(mid, now, project, {other}, fn);
    RemainsThrough(before, mid, now, project, fn);
    hide OnlyTouched, DeployedRemain, NamesDeployed;
  }

  /** A function deployed after others were is switched with respect to the beginning too. */
  lemma SwitchedSinceBefore(before: Durable, mid: Durable, now: Durable, project: string, names: set<string>, fn: string, id: string)
    requires OnlyTouched(before, mid, project, names) && fn !in names && Switched(mid, now, project, fn, id)
    ensures Switched(before, now, project, fn, id)
  {
    UntouchedStays(before, mid, project, names, fn);
    RemainsThrough(before, mid, now, project, fn);
    hide OnlyTouched, DeployedRemain, NamesDeployed;
  }

  lemma OneMoreSwitched(before: Durable, mid: Durable, now: Durable, project: string, revisions: map<string, string>, fn: string, id: string)
    requires AllSwitched(before, mid, project, revisions) && OnlyTouched(before, mid, project, revisions.Keys)
    requires OnlyTouched(mid, now, project, {fn}) && fn !in revisions && Switched(mid, now, project, fn, id)
    ensures AllSwitched(before, now, project, revisions[fn := id])
  {
    hide Switched, OnlyTouched;
    StillSwitched(before, mid, now, project, revisions, fn);
    SwitchedSinceBefore(before, mid, now, project, revisions.Keys, fn, id);
  }

  lemma StillSwitched(before: Durable, mid: Durable, now: Durable, project: string, revisions: map<string, string>, fn: string)
    requires AllSwitched(before, mid, project, revisions) && OnlyTouched(mid, now, project, {fn}) && fn !in revisions
    ensures AllSwitched(before, now, project, revisions)
  {
    hide Switched, OnlyTouched;
    forall g | g in revisions ensures Switched(before, now, project, g, revisions[g]) {
      StaysSwitched(before, mid, now, project, g, revisions[g], fn);
    }
  }

  /** All items were switched, or those before the last one reached. */
  predicate Progress(items: seq<Item>, ok: bool, reached: nat, revisions: map<string, string>) {
    reached <= |items|
    && (if ok then reached == |items| && revisions.Keys == Names(items)
        else reached > 0 && revisions.Keys == Names(items[..reached - 1]))
  }

  /** Which revision each function of the batch had active. */
  method CapturePointers(svc: DeploymentService, project: string, items: seq<Item>) returns (previous: map<string, Option<string>>)
    ensures previous.Keys == Names(items)
    ensures forall fn :: fn in previous ==> previous[fn] == PointerOf(svc.activePointers, project, fn)
  {
    previous := map[];
    for i := 0 to |items|
      invariant previous.Keys == Names(items[..i])
      invariant forall fn :: fn in previous ==> previous[fn] == PointerOf(svc.activePointers, project, fn)
    {
      previous := previous[items[i].name := PointerOf(svc.activePointers, project, items[i].name)];
    }
    assert items[..|items|] == items;
  }

  /** One turn of the deploy loop.  `None` when the function was rejected. */
  method DeployNext(svc: DeploymentService, project: string, item: Item, c: Circumstance, revisions: map<string, string>, ghost d: Durable)
    returns (id: Option<string>)
    requires item.name !in revisions
    requires OnlyTouched(d, svc.View().durable, project, revisions.Keys) && AllSwitched(d, svc.View().durable, project, revisions)
    modifies svc
    ensures OnlyTouched(d, svc.View().durable, project, revisions.Keys + {item.name})
    ensures AllSwitched(d, svc.View().durable, project, if id.Some? then revisions[item.name := id.value] else revisions)
    ensures id.None? ==> PointerOf(svc.View().durable.pointers, project, item.name) == PointerOf(d.pointers, project, item.name)
    ensures id.Some? <==> WillSwitch(d, project, item, c, NextId(old(svc.lastTimestamp), c))
    ensures id.Some? ==>
      id.value == NextId(old(svc.lastTimestamp), c) && Carries(svc.View().durable, project, item.name, id.value, item.artifact)
      && svc.lastTimestamp == NextTimestamp(old(svc.lastTimestamp), c.now)
    ensures OnlyTouched(old(svc.View()).durable, svc.View().durable, project, {item.name})
  {
    UntouchedStays(d, svc.View().durable, project, revisions.Keys, item.name);
    hide OnlyTouched, AllSwitched, Switched, NextId, Carries;
    ghost var mid := svc.View().durable;
    var r := Deploy(svc, project, item, c);
    TouchedTwice(d, mid, svc.View().durable, project, revisions.Keys, {item.name});
    if r.None? || r.value.state == Failed || !r.value.active {
      StillSwitched(d, mid, svc.View().durable, project, revisions, item.name);
      UntouchedStays(d, mid, project, revisions.Keys, item.name);
      return None;
    }
    OneMoreSwitched(d, mid, svc.View().durable, project, revisions, item.name, r.value.revisionId);
    return Some(r.value.revisionId);
  }

  lemma OthersPointStill(d: Durable, now: Durable, project: string, revisions: map<string, string>, name: string)
    requires OnlyTouched(d, now, project, revisions.Keys + {name}) && PointerOf(now.pointers, project, name) == PointerOf(d.pointers, project, name)
    ensures OthersPoint(d, now, project, revisions)
  {
  }

  lemma OnlySwitchedTouched(d: Durable, now: Durable, project: string, revisions: map<string, string>)
    requires OnlyTouched(d, now, project, revisions.Keys)
    ensures OthersPoint(d, now, project, revisions)
  {
  }

  lemma NothingTouched(d: Durable, project: string)
    ensures OnlyTouched(d, d, project, {}) && AllSwitched(d, d, project, map[])
  {
  }

  /** The last timestamp when the first `n` items have been deployed. */
  function TimeAt(last: nat, cs: seq<Circumstance>, n: nat): nat
    requires n <= |cs|
  {
    if n == 0 then last else NextTimestamp(TimeAt(last, cs, n - 1), cs[n - 1].now)
  }

  /** The identifier of the item at its turn. */
  function IdAt(last: nat, cs: seq<Circumstance>, i: nat): string
    requires i < |cs|
  {
    NextId(TimeAt(last, cs, i), cs[i])
  }

  /** Whether the item switches its function at its turn. */
  predicate Switches(s: Service, project: string, items: seq<Item>, cs: seq<Circumstance>, i: nat)
    requires i < |items| == |cs|
  {
    WillSwitch(s.durable, project, items[i], cs[i], IdAt(s.lastTimestamp, cs, i))
  }

  /** The first `n` items switched, under their identifiers and for their artifacts. */
  ghost predicate SwitchedUpTo(s: Service, now: Durable, project: string, items: seq<Item>, cs: seq<Circumstance>, revisions: map<string, string>, n: nat)
    requires n <= |items| == |cs|
  {
    forall i :: 0 <= i < n ==> ItemSwitched(s, now, project, items, cs, revisions, i)
  }

  ghost predicate ItemSwitched(s: Service, now: Durable, project: string, items: seq<Item>, cs: seq<Circumstance>, revisions: map<string, string>, i: nat)
    requires i < |items| == |cs|
  {
    var name, id := items[i].name, IdAt(s.lastTimestamp, cs, i);
    Switches(s, project, items, cs, i) && name in revisions && revisions[name] == id && Carries(now, project, name, id, items[i].artifact)
  }

  /** Deploying the next item leaves the earlier ones as they are. */
  lemma OneMoreItem(s: Service, mid: Durable, now: Durable, project: string, items: seq<Item>, cs: seq<Circumstance>,
                    revisions: map<string, string>, revisions': map<string, string>, n: nat)
    requires |cs| == |items| && n < |items| && Distinct(items) && SwitchedUpTo(s, mid, project, items, cs, revisions, n)
    requires OnlyTouched(mid, now, project, {items[n].name}) && (forall fn :: fn in revisions && fn != items[n].name ==> fn in revisions' && revisions'[fn] == revisions[fn])
    ensures SwitchedUpTo(s, now, project, items, cs, revisions', n)
  {
    hide Switches, IdAt, OnlyTouched, Carries;
    forall i | 0 <= i < n ensures ItemSwitched(s, now, project, items, cs, revisions', i) {
      assert ItemSwitched(s, mid, project, items, cs, revisions, i) && items[i].name != items[n].name;
      CarriesStays(mid, now, project, items[n].name, items[i].name, IdAt(s.lastTimestamp, cs, i), items[i].artifact);
    }
  }

  lemma CarriesStays(mid: Durable, now: Durable, project: string, other: string, fn: string, id: string, a: Artifact)
    requires OnlyTouched(mid, now, project, {other}) && fn != other && Carries(mid, project, fn, id, a)
    ensures Carries(now, project, fn, id, a)
  {
    assert PointerOf(now.pointers, project, fn) == PointerOf(mid.pointers, project, fn);
  }

  /** The first `n` items switch at their turns, under these identifiers. */
  ghost predicate SwitchBefore(s: Service, project: string, items: seq<Item>, cs: seq<Circumstance>, revisions: map<string, string>, n: nat)
    requires n <= |items| == |cs|
  {
    forall i :: 0 <= i < n ==>
      Switches(s, project, items, cs, i) && items[i].name in revisions && revisions[items[i].name] == IdAt(s.lastTimestamp, cs, i)
  }

  lemma SwitchedMeansSwitch(s: Service, now: Durable, project: string, items: seq<Item>, cs: seq<Circumstance>, revisions: map<string, string>, n: nat)
    requires n <= |items| == |cs| && SwitchedUpTo(s, now, project, items, cs, revisions, n)
    ensures SwitchBefore(s, project, items, cs, revisions, n)
  {
    hide Switches, IdAt, Carries;
    forall i | 0 <= i < n
      ensures Switches(s, project, items, cs, i) && items[i].name in revisions && revisions[items[i].name] == IdAt(s.lastTimestamp, cs, i)
    {
      assert ItemSwitched(s, now, project, items, cs, revisions, i);
    }
  }

  /** The deploy loop.  On return `order` lists the functions switched. */
  method DeployAll(svc: DeploymentService, project: string, items: seq<Item>, cs: seq<Circumstance>)
    returns (ok: bool, reached: nat, revisions: map<string, string>, order: seq<string>)
    requires |cs| == |items| && Distinct(items)
    modifies svc
    ensures Progress(items, ok, reached, revisions) && forall fn :: fn in revisions <==> fn in order
    ensures OnlyTouched(old(svc.View()).durable, svc.View().durable, project, Names(items[..reached]))
    ensures OthersPoint(old(svc.View()).durable, svc.View().durable, project, revisions)
    ensures AllSwitched(old(svc.View()).durable, svc.View().durable, project, revisions)
    ensures SwitchedUpTo(old(svc.View()), svc.View().durable, project, items, cs, revisions, if ok then |items| else reached - 1)
    ensures !ok ==> !Switches(old(svc.View()), project, items, cs, reached - 1)
  {
    hide OnlyTouched, AllSwitched, OthersPoint, SwitchedUpTo, WillSwitch, Carries, NextId;
    ghost var s := svc.View();
    ghost var d := s.durable;
    NoneSwitchedYet(s, project, items, cs);
    ok, revisions, order := true, map[], [];
    NothingTouched(d, project);
    assert revisions.Keys == {};
    var i := 0;
    while i < |items|
      invariant i <= |items| && revisions.Keys == Names(items[..i]) && forall fn :: fn in revisions <==> fn in order
      invariant OnlyTouched(d, svc.View().durable, project, revisions.Keys)
      invariant AllSwitched(d, svc.View().durable, project, revisions)
      invariant SwitchedUpTo(s, svc.View().durable, project, items, cs, revisions, i) && svc.lastTimestamp == TimeAt(s.lastTimestamp, cs, i)
    {
      ghost var mid := svc.View().durable;
      var name := items[i].name;
      assert name !in Names(items[..i]);
      assert Names(items[..i + 1]) == Names(items[..i]) + {name};
      var id := DeployNext(svc, project, items[i], cs[i], revisions, d);
      if id.None? {
        OthersPointStill(d, svc.View().durable, project, revisions, name);
        OneMoreItem(s, mid, svc.View().durable, project, items, cs, revisions, revisions, i);
        return false, i + 1, revisions, order;
      }
      assert revisions[name := id.value].Keys == revisions.Keys + {name};
      OneMoreItem(s, mid, svc.View().durable, project, items, cs, revisions, revisions[name := id.value], i);
      revisions := revisions[name := id.value];
      ItemIsSwitched(s, svc.View().durable, project, items, cs, revisions, i);
      order := order + [name];
      i := i + 1;
    }
    reached := i;
    OnlySwitchedTouched(d, svc.View().durable, project, revisions);
    assert items[..|items|] == items;
  }

  lemma NoneSwitchedYet(s: Service, project: string, items: seq<Item>, cs: seq<Circumstance>)
    requires |cs| == |items|
    ensures SwitchedUpTo(s, s.durable, project, items, cs, map[], 0)
  {
  }

  lemma ItemIsSwitched(s: Service, now: Durable, project: string, items: seq<Item>, cs: seq<Circumstance>, revisions: map<string, string>, n: nat)
    requires |cs| == |items| && n < |items| && SwitchedUpTo(s, now, project, items, cs, revisions, n) && ItemSwitched(s, now, project, items, cs, revisions, n)
    ensures SwitchedUpTo(s, now, project, items, cs, revisions, n + 1)
  {
    hide ItemSwitched;
  }

  /** One rollback of the compensation loop. */
  lemma OneMoreSettled(before: Durable, s: Service, s': Service, project: string, revisions: map<string, string>, order: seq<string>, n: nat)
    requires n < |order| && order[n] in revisions
    requires AllSettled(before, s.durable, project, revisions, order[..n])
    requires var was := PointerOf(before.pointers, project, order[n]);
      if was.GetOr("") != "" && RollbackDecision(RecordOf(s.durable.revisions, project, order[n], was.value)).None?
      then s' == RolledBack(s, project, order[n], was.value) else s' == s
    ensures AllSettled(before, s'.durable, project, revisions, order[..n + 1])
  {
    assert order[..n + 1] == order[..n] + [order[n]];
    forall g | g in revisions ensures Settled(before, s'.durable, project, g, revisions[g], g in order[..n + 1]) {
      assert Settled(before, s.durable, project, g, revisions[g], g in order[..n]);
      assert g == order[n] && WasServing(before, project, g) ==>
        NamesDeployed(s.durable, project, g, PointerOf(before.pointers, project, g).value);
    }
  }

  /** The compensation loop; a rollback that throws is passed over. */
  method Compensate(svc: DeploymentService, project: string, previous: map<string, Option<string>>, revisions: map<string, string>, order: seq<string>,
                    ghost d: Durable)
    requires forall fn :: fn in order ==> fn in previous && previous[fn] == PointerOf(d.pointers, project, fn)
    requires forall fn :: fn in revisions <==> fn in order
    requires AllSwitched(d, svc.View().durable, project, revisions)
    modifies svc
    ensures AllSettled(d, svc.View().durable, project, revisions, order)
    ensures OnlyTouched(old(svc.View()).durable, svc.View().durable, project, revisions.Keys)
  {
    ghost var start := svc.View().durable;
    assert AllSettled(d, start, project, revisions, []) by {
      forall fn | fn in revisions ensures Settled(d, start, project, fn, revisions[fn], false) {
        assert Switched(d, start, project, fn, revisions[fn]);
      }
    }
    for n := 0 to |order|
      invariant AllSettled(d, svc.View().durable, project, revisions, order[..n])
      invariant OnlyTouched(start, svc.View().durable, project, revisions.Keys)
    {
      var fn := order[n];
      assert fn in order;
      ghost var s := svc.View();
      var prev := previous[fn];
      if prev.Some? && prev.value != "" {
        var read := svc.GetRevision(project, fn, prev.value);
        var _ := svc.FinishRollback(project, fn, prev.value, read);
      }
      OneMoreSettled(d, s, svc.View(), project, revisions, order, n);
      assert OnlyTouched(s.durable, svc.View().durable, project, {fn});
      TouchedTwice(start, s.durable, svc.View().durable, project, revisions.Keys, {fn});
      assert revisions.Keys + {fn} == revisions.Keys;
    }
    assert order[..|order|] == order;
  }

  /** What a finished batch promises the functions it was asked to deploy. */
  ghost predicate Outcome(d: Durable, d': Durable, project: string, items: seq<Item>, ok: bool, reached: nat, revisions: map<string, string>) {
    OthersPoint(d, d', project, revisions)
    && (ok ==> AllSwitched(d, d', project, revisions))
    && (!ok ==> 0 < reached <= |items| && ServingAgain(d, d', project, items[reached - 1].name) && OthersKept(d, d', project, revisions))
  }

  /** Every function with a Deployed active revision has exactly that one active, and but for
      the rejected one, whose record a new one of the same identifier would replace, it is
      Deployed as before. */
  ghost predicate ServingAgain(d: Durable, d': Durable, project: string, rejected: string) {
    forall fn :: WasServing(d, project, fn) ==>
      PointerOf(d'.pointers, project, fn) == PointerOf(d.pointers, project, fn) && (fn != rejected ==> WasServing(d', project, fn))
  }

  /** A function switched by the batch keeps its new revision if it had none before, or one that is not Deployed. */
  ghost predicate OthersKept(d: Durable, d': Durable, project: string, revisions: map<string, string>) {
    forall fn :: fn in revisions && !Revertible(d, d', project, fn) ==> PointerOf(d'.pointers, project, fn) == Some(revisions[fn])
  }

  predicate Revertible(d: Durable, d': Durable, project: string, fn: string) {
    var was := PointerOf(d.pointers, project, fn);
    was.GetOr("") != "" && NamesDeployed(d', project, fn, was.value)
  }

  lemma SettledMeansServing(d: Durable, mid: Durable, d': Durable, project: string, revisions: map<string, string>, order: seq<string>, rejected: string)
    requires OthersPoint(d, mid, project, revisions) && OnlyTouched(mid, d', project, revisions.Keys)
    requires OnlyTouched(d, d', project, revisions.Keys + {rejected})
    requires AllSettled(d, d', project, revisions, order) && forall fn :: fn in revisions <==> fn in order
    ensures ServingAgain(d, d', project, rejected)
  {
    hide OnlyTouched, AllSettled;
    forall fn | WasServing(d, project, fn)
      ensures PointerOf(d'.pointers, project, fn) == PointerOf(d.pointers, project, fn) && (fn != rejected ==> WasServing(d', project, fn))
    {
      if fn in revisions {
        IsSettled(d, d', project, revisions, order, fn);
      } else {
        UntouchedStays(mid, d', project, revisions.Keys, fn);
        if fn != rejected { UntouchedStays(d, d', project, revisions.Keys + {rejected}, fn); }
      }
    }
  }

  lemma IsSettled(d: Durable, d': Durable, project: string, revisions: map<string, string>, order: seq<string>, fn: string)
    requires AllSettled(d, d', project, revisions, order) && fn in revisions && fn in order
    ensures Settled(d, d', project, fn, revisions[fn], true)
  {
  }

  lemma SettledMeansKept(d: Durable, mid: Durable, d': Durable, project: string, revisions: map<string, string>, order: seq<string>)
    requires OthersPoint(d, mid, project, revisions) && OnlyTouched(mid, d', project, revisions.Keys)
    requires AllSettled(d, d', project, revisions, order) && forall fn :: fn in revisions <==> fn in order
    ensures OthersPoint(d, d', project, revisions) && OthersKept(d, d', project, revisions)
  {
    forall fn | fn in revisions ensures Settled(d, d', project, fn, revisions[fn], true) {
      IsSettled(d, d', project, revisions, order, fn);
    }
  }

  lemma FewerNames(items: seq<Item>, n: nat)
    requires n <= |items|
    ensures Names(items[..n]) <= Names(items)
  {
  }

  lemma OneMoreName(items: seq<Item>, n: nat)
    requires 0 < n <= |items|
    ensures Names(items[..n]) == Names(items[..n - 1]) + {items[n - 1].name}
  {
    assert items[..n] == items[..n - 1] + [items[n - 1]];
  }

  /** Batch deploy.  The first `reached` items were attempted; `revisions` holds those that were switched. */
  method RunBatch(svc: DeploymentService, project: string, items: seq<Item>, cs: seq<Circumstance>)
    returns (ok: bool, reached: nat, revisions: map<string, string>)
    requires |cs| == |items| && Distinct(items)
    modifies svc
    ensures Progress(items, ok, reached, revisions)
    ensures OnlyTouched(old(svc.View()).durable, svc.View().durable, project, Names(items[..reached]))
    ensures Outcome(old(svc.View()).durable, svc.View().durable, project, items, ok, reached, revisions)
    ensures SwitchBefore(old(svc.View()), project, items, cs, revisions, if ok then |items| else reached - 1)
    ensures if ok then SwitchedUpTo(old(svc.View()), svc.View().durable, project, items, cs, revisions, |items|)
            else !Switches(old(svc.View()), project, items, cs, reached - 1)
  {
    hide OnlyTouched, OthersPoint, AllSwitched, AllSettled, ServingAgain, OthersKept, Names, Distinct, Switches, SwitchedUpTo, SwitchBefore;
    ghost var s := svc.View();
    ghost var d := svc.View().durable;
    var previous := CapturePointers(svc, project, items);
    var order;
    ok, reached, revisions, order := DeployAll(svc, project, items, cs);
    ghost var mid := svc.View().durable;
    SwitchedMeansSwitch(s, mid, project, items, cs, revisions, if ok then |items| else reached - 1);
    if !ok {
      FewerNames(items, reached - 1);
      Compensate(svc, project, previous, revisions, order, d);
      TouchedTwice(d, mid, svc.View().durable, project, Names(items[..reached]), revisions.Keys);
      OneMoreName(items, reached);
      assert Names(items[..reached]) + revisions.Keys == Names(items[..reached]);
      SettledMeansServing(d, mid, svc.View().durable, project, revisions, order, items[reached - 1].name);
      SettledMeansKept(d, mid, svc.View().durable, project, revisions, order);
    }
  }
}

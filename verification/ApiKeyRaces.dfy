/**
  Overlapping calls on the API key store (packages/auth/store.ts), cut at their awaits:
  a verification reads the cache, reads storage and fills the cache; a revocation reads
  two indexes, writes two and evicts; a creation writes three.  `trace` records what
  happened to tokens and the cache, in order.
*/
module ApiKeyRaces {
  import opened Options
  import opened Stores
  import opened ApiKeys

  /** A call suspended at an await. */
  datatype Flight =
    | Missed(hash: string)
    | Filling(hash: string, identity: Identity)
    | FindingRecord(id: string, hash: string)
    | Marking(id: string, hash: string, record: Record)
    | WritingOrg(id: string, hash: string, record: Record)
    | Evicting(hash: string)
    | CreatingId(record: Record)
    | CreatingOrg(record: Record)

  /** A verification's read answered, or its fill took effect; a revocation marked the
      token's record, or evicted its entry; an entry expired. */
  datatype Entry =
    | Read(call: nat, hash: string)
    | Filled(call: nat, hash: string)
    | Marked(call: nat, hash: string)
    | Evicted(call: nat, hash: string)
    | Expired(hash: string)

  datatype System = System(storage: Storage, cache: map<string, Identity>, flights: map<nat, Flight>, started: set<nat>, trace: seq<Entry>)

  datatype Event =
    | CreateBegins(call: nat, record: Record)
    | CreateGoesOn(call: nat)
    | VerifyBegins(call: nat, hash: string, cacheFails: bool)
    | VerifyReads(call: nat)
    | VerifyFills(call: nat, ok: bool)
    | RevokeBegins(call: nat, id: string)
    | RevokeReads(call: nat, now: nat)
    | RevokeWrites(call: nat)
    | RevokeEvicts(call: nat, ok: bool)
    | Expire(hash: string)

  const START: System := System(map[], map[], map[], {}, [])

  // ---------------------------------------------------------------- steps

  /** The store as it is between two steps. */
  function View(s: System): State { State(s.storage, Some(s.cache)) }

  function Suspended(s: System, call: nat, f: Flight): System { s.(flights := s.flights[call := f], started := s.started + {call}) }

  function Ended(s: System, call: nat): System { s.(flights := s.flights - {call}, started := s.started + {call}) }

  function Logged(s: System, e: Entry): System { s.(trace := s.trace + [e]) }

  predicate Enabled(s: System, e: Event) {
    match e
    case CreateBegins(call, r) => call !in s.started && r.revokedAt.None? && r.tokenHash != "" && TokenKey(r.tokenHash) !in s.storage
    case CreateGoesOn(call) => call in s.flights && (s.flights[call].CreatingId? || s.flights[call].CreatingOrg?)
    case VerifyBegins(call, _, _) => call !in s.started
    case VerifyReads(call) => call in s.flights && s.flights[call].Missed?
    case VerifyFills(call, _) => call in s.flights && s.flights[call].Filling?
    case RevokeBegins(call, _) => call !in s.started
    case RevokeReads(call, _) => call in s.flights && s.flights[call].FindingRecord?
    case RevokeWrites(call) => call in s.flights && (s.flights[call].Marking? || s.flights[call].WritingOrg?)
    case RevokeEvicts(call, _) => call in s.flights && s.flights[call].Evicting?
    case Expire(_) => true
  }

  /** A verification after its read of the cache. */
  function VerifyBegun(s: System, call: nat, hash: string, cacheFails: bool): System {
    if !cacheFails && CacheAnswer(View(s), hash).Some? then Ended(s, call) else Suspended(s, call, Missed(hash))
  }

  /** A verification after its read of storage. */
  function VerifyRead(s: System, call: nat, hash: string): System {
    var answer := StorageAnswer(s.storage, hash);
    if answer.None? then Ended(s, call)
    else
      var s' := Logged(s, Read(call, hash));
      if Cacheable(answer.value) then Suspended(s', call, Filling(hash, answer.value)) else Ended(s', call)
  }

  function RevokeBegun(s: System, call: nat, id: string): System {
    if IdKey(id) in s.storage && s.storage[IdKey(id)].HashValue? && s.storage[IdKey(id)].hash != ""
    then Suspended(s, call, FindingRecord(id, s.storage[IdKey(id)].hash)) else Ended(s, call)
  }

  function RevokeRead(s: System, call: nat, id: string, hash: string, now: nat): System {
    if TokenKey(hash) in s.storage && s.storage[TokenKey(hash)].RecordValue?
    then Suspended(s, call, Marking(id, hash, s.storage[TokenKey(hash)].record.(revokedAt := Some(now)))) else Ended(s, call)
  }

  function Step(s: System, e: Event): System
    requires Enabled(s, e)
  {
    match e
    case CreateBegins(call, r) => Suspended(s.(storage := s.storage[TokenKey(r.tokenHash) := RecordValue(r)]), call, CreatingId(r))
    case CreateGoesOn(call) =>
      var r := s.flights[call].record;
      if s.flights[call].CreatingId? then Suspended(s.(storage := s.storage[IdKey(r.id) := HashValue(r.tokenHash)]), call, CreatingOrg(r))
      else if KeyFits(KeyOf(OrgKey(r.orgId, r.id))) then Ended(s.(storage := s.storage[OrgKey(r.orgId, r.id) := RecordValue(r)]), call)
      else Ended(s, call)
    case VerifyBegins(call, hash, cacheFails) => VerifyBegun(s, call, hash, cacheFails)
    case VerifyReads(call) => VerifyRead(s, call, s.flights[call].hash)
    case VerifyFills(call, ok) =>
      var f := s.flights[call];
      if ok then Ended(Logged(s.(cache := s.cache[f.hash := f.identity]), Filled(call, f.hash)), call) else Ended(s, call)
    case RevokeBegins(call, id) => RevokeBegun(s, call, id)
    case RevokeReads(call, now) => RevokeRead(s, call, s.flights[call].id, s.flights[call].hash, now)
    case RevokeWrites(call) =>
      var f := s.flights[call];
      if f.Marking? then
        Suspended(Logged(s.(storage := s.storage[TokenKey(f.hash) := RecordValue(f.record)]), Marked(call, f.hash)), call, WritingOrg(f.id, f.hash, f.record))
      else Suspended(s.(storage := s.storage[OrgKey(f.record.orgId, f.id) := RecordValue(f.record)]), call, Evicting(f.hash))
    case RevokeEvicts(call, ok) =>
      var hash := s.flights[call].hash;
      if ok then Ended(Logged(s.(cache := s.cache - {hash}), Evicted(call, hash)), call) else Ended(s, call)
    case Expire(hash) => Logged(s.(cache := s.cache - {hash}), Expired(hash))
  }

  predicate ValidRun(s: System, events: seq<Event>)
    decreases |events|, 0
  {
    events == [] || (ValidRun(s, events[..|events| - 1]) && Enabled(Run(s, events[..|events| - 1]), events[|events| - 1]))
  }

  function Run(s: System, events: seq<Event>): System
    requires ValidRun(s, events)
    decreases |events|, 1
  {
    if events == [] then s else Step(Run(s, events[..|events| - 1]), events[|events| - 1])
  }

  // ---------------------------------------------------------------- what the trace tells

  predicate Removes(e: Entry, hash: string) { (e.Evicted? || e.Expired?) && e.hash == hash }

  /** By its trace the cache holds an entry for `hash`. */
  predicate Holds(trace: seq<Entry>, hash: string) {
    trace != []
    && var last := trace[|trace| - 1];
       (last.Filled? && last.hash == hash) || (!Removes(last, hash) && Holds(trace[..|trace| - 1], hash))
  }

  /** A fill at `f` that has been neither evicted nor has expired. */
  predicate Lasts(trace: seq<Entry>, f: int, hash: string) {
    0 <= f < |trace| && trace[f].Filled? && trace[f].hash == hash && forall g :: f < g < |trace| ==> !Removes(trace[g], hash)
  }

  lemma {:induction false} HeldMeansFilled(trace: seq<Entry>, hash: string)
    requires Holds(trace, hash)
    ensures exists f :: Lasts(trace, f, hash)
  {
    var n := |trace| - 1;
    if trace[n].Filled? && trace[n].hash == hash {
      assert Lasts(trace, n, hash);
    } else {
      HeldMeansFilled(trace[..n], hash);
      var f :| Lasts(trace[..n], f, hash);
      assert forall g :: f <= g < n ==> trace[..n][g] == trace[g];
      assert Lasts(trace, f, hash);
    }
  }

  lemma {:induction false} FilledMeansHeld(trace: seq<Entry>, f: int, hash: string)
    requires Lasts(trace, f, hash)
    ensures Holds(trace, hash)
  {
    var n := |trace| - 1;
    if f < n {
      assert forall g :: f <= g < n ==> trace[..n][g] == trace[g];
      assert !Removes(trace[n], hash);
      FilledMeansHeld(trace[..n], f, hash);
    }
  }

  predicate WasMarked(trace: seq<Entry>, hash: string) { exists m :: 0 <= m < |trace| && trace[m].Marked? && trace[m].hash == hash }

  /** Fills follow a read of the same call; nothing is read once it has been marked. */
  predicate Explained(before: seq<Entry>, e: Entry) {
    (e.Filled? ==> Read(e.call, e.hash) in before) && (e.Read? ==> !WasMarked(before, e.hash))
  }

  ghost predicate TraceSound(trace: seq<Entry>) { forall n :: 0 <= n < |trace| ==> Explained(trace[..n], trace[n]) }

  ghost predicate CacheTraced(s: System) {
    (forall hash :: hash in s.cache <==> Holds(s.trace, hash)) && forall hash :: hash in s.cache ==> Cacheable(s.cache[hash])
  }

  ghost predicate MarksStand(s: System) { forall hash :: WasMarked(s.trace, hash) ==> IsRevoked(s.storage, hash) }

  predicate FlightSound(s: System, call: nat)
    requires call in s.flights
  {
    match s.flights[call]
    case Filling(hash, identity) => Read(call, hash) in s.trace && Cacheable(identity)
    case Marking(_, _, record) => record.revokedAt.Some?
    case _ => true
  }

  ghost predicate FlightsSound(s: System) { forall call :: call in s.flights ==> FlightSound(s, call) }

  ghost predicate Inv(s: System) { TraceSound(s.trace) && CacheTraced(s) && MarksStand(s) && FlightsSound(s) }

  lemma TraceGrows(trace: seq<Entry>, e: Entry)
    requires TraceSound(trace) && Explained(trace, e)
    ensures TraceSound(trace + [e])
  {
    var longer := trace + [e];
    forall n | 0 <= n < |longer| ensures Explained(longer[..n], longer[n]) {
      if n < |trace| {
        assert longer[..n] == trace[..n];
      } else {
        assert longer[..n] == trace;
      }
    }
  }

  lemma MarkedGrows(trace: seq<Entry>, e: Entry, hash: string)
    ensures WasMarked(trace + [e], hash) <==> WasMarked(trace, hash) || (e.Marked? && e.hash == hash)
  {
    var longer := trace + [e];
    assert longer[|trace|] == e && forall m :: 0 <= m < |trace| ==> longer[m] == trace[m];
  }

  lemma HoldsGrows(trace: seq<Entry>, e: Entry, hash: string)
    ensures Holds(trace + [e], hash) <==> (e.Filled? && e.hash == hash) || (!Removes(e, hash) && Holds(trace, hash))
  {
    assert (trace + [e])[..|trace|] == trace;
  }

  lemma EntryIsExplained(s: System, e: Event)
    requires Inv(s) && Enabled(s, e)
    ensures Step(s, e).trace == s.trace || (|Step(s, e).trace| == |s.trace| + 1 && Step(s, e).trace == s.trace + [Step(s, e).trace[|s.trace|]])
    ensures Step(s, e).trace != s.trace ==> Explained(s.trace, Step(s, e).trace[|s.trace|])
  {
    hide KeyFits, KeyOf, Holds;
    if e.VerifyFills? { assert FlightSound(s, e.call); }
    if e.VerifyReads? { assert WasMarked(s.trace, s.flights[e.call].hash) ==> IsRevoked(s.storage, s.flights[e.call].hash); }
  }

  lemma StepKeepsTrace(s: System, e: Event)
    requires Inv(s) && Enabled(s, e)
    ensures TraceSound(Step(s, e).trace)
  {
    EntryIsExplained(s, e);
    hide Step, Explained;
    if Step(s, e).trace != s.trace { TraceGrows(s.trace, Step(s, e).trace[|s.trace|]); }
  }

  lemma StepKeepsCache(s: System, e: Event)
    requires Inv(s) && Enabled(s, e)
    ensures CacheTraced(Step(s, e))
  {
    hide KeyFits, KeyOf, Holds, WasMarked, Explained;
    var s' := Step(s, e);
    if e.VerifyFills? { assert FlightSound(s, e.call); }
    forall hash ensures hash in s'.cache <==> Holds(s'.trace, hash) {
      if s'.trace != s.trace { HoldsGrows(s.trace, s'.trace[|s.trace|], hash); }
    }
  }

  lemma StepKeepsMarks(s: System, e: Event)
    requires Inv(s) && Enabled(s, e)
    ensures MarksStand(Step(s, e))
  {
    hide KeyFits, KeyOf, Holds, WasMarked, Explained;
    var s' := Step(s, e);
    if e.RevokeWrites? { assert FlightSound(s, e.call); }
    forall hash | WasMarked(s'.trace, hash) ensures IsRevoked(s'.storage, hash) {
      if s'.trace != s.trace { MarkedGrows(s.trace, s'.trace[|s.trace|], hash); }
    }
  }

  lemma StepKeepsFlights(s: System, e: Event)
    requires Inv(s) && Enabled(s, e)
    ensures FlightsSound(Step(s, e))
  {
    hide KeyFits, KeyOf, Holds, WasMarked, Explained;
    var s' := Step(s, e);
    forall call | call in s'.flights ensures FlightSound(s', call) {
      if call in s.flights { assert FlightSound(s, call); }
    }
  }

  lemma {:induction false} RunKeepsInv(events: seq<Event>)
    requires ValidRun(START, events)
    ensures Inv(Run(START, events))
    decreases |events|
  {
    hide Enabled, Step, TraceSound, CacheTraced, MarksStand, FlightsSound;
    if events == [] {
      StartIsSound();
    } else {
      var before, e := events[..|events| - 1], events[|events| - 1];
      RunKeepsInv(before);
      StepKeepsTrace(Run(START, before), e);
      StepKeepsCache(Run(START, before), e);
      StepKeepsMarks(Run(START, before), e);
      StepKeepsFlights(Run(START, before), e);
    }
  }

  lemma StartIsSound()
    ensures Inv(START)
  {
  }

  // ---------------------------------------------------------------- the exact condition

  /** The fill at `f` lasts and its call read storage before position `m`. */
  predicate Overtaken(trace: seq<Entry>, hash: string, m: nat, f: int)
    requires m <= |trace|
  {
    Lasts(trace, f, hash) && Read(trace[f].call, hash) in trace[..m]
  }

  /** A verification that read storage before position `m` filled the cache after position
      `e`, and nothing has removed its entry since. */
  ghost predicate FilledLate(trace: seq<Entry>, hash: string, m: nat, e: nat)
    requires m <= |trace|
  {
    exists f :: f > e && Overtaken(trace, hash, m, f)
  }

  /** After a revocation, finished with its mark at `m` and its eviction at `e`, the token is
      answered if and only if a verification overtaken by it filled the cache afterwards
      and that entry is still there.  Storage alone always refuses it. */
  lemma RevokedIsAnsweredIff(events: seq<Event>, w: nat, hash: string, m: nat, e: nat)
    requires ValidRun(START, events)
    requires var trace := Run(START, events).trace; m < e < |trace| && trace[m] == Marked(w, hash) && trace[e] == Evicted(w, hash)
    ensures var s := Run(START, events);
      StorageAnswer(s.storage, hash) == None && (Answer(View(s), hash).Some? <==> FilledLate(s.trace, hash, m, e))
  {
    MarkedIsAnsweredIff(events, w, hash, m);
    var trace := Run(START, events).trace;
    hide ValidRun, Run;
    assert Removes(trace[e], hash);
    assert forall f :: Lasts(trace, f, hash) ==> f > e;
  }

  /** From the mark on, whether the eviction is still to come, came or failed: the token is
      answered if and only if the entry of a verification that read before the mark lasts. */
  lemma MarkedIsAnsweredIff(events: seq<Event>, w: nat, hash: string, m: nat)
    requires ValidRun(START, events)
    requires var trace := Run(START, events).trace; m < |trace| && trace[m] == Marked(w, hash)
    ensures var s := Run(START, events);
      StorageAnswer(s.storage, hash) == None && (Answer(View(s), hash).Some? <==> exists f :: Overtaken(s.trace, hash, m, f))
  {
    RunKeepsInv(events);
    var s := Run(START, events);
    hide ValidRun, Run, TraceSound, FlightsSound;
    assert WasMarked(s.trace, hash);
    assert Answer(View(s), hash).Some? <==> Holds(s.trace, hash);
    HeldIffOvertaken(s.trace, hash, m);
  }

  lemma HeldIffOvertaken(trace: seq<Entry>, hash: string, m: nat)
    requires TraceSound(trace) && m < |trace| && trace[m].Marked? && trace[m].hash == hash
    ensures Holds(trace, hash) <==> exists f :: Overtaken(trace, hash, m, f)
  {
    hide Holds, TraceSound;
    if Holds(trace, hash) {
      HeldMeansFilled(trace, hash);
      var f :| Lasts(trace, f, hash);
      FillWasRead(trace, f, m);
      assert Overtaken(trace, hash, m, f);
    }
    if f :| Overtaken(trace, hash, m, f) { FilledMeansHeld(trace, f, hash); }
  }

  /** A fill was read before every mark of its token. */
  lemma FillWasRead(trace: seq<Entry>, f: int, m: nat)
    requires TraceSound(trace) && 0 <= f < |trace| && trace[f].Filled?
    requires m < |trace| && trace[m].Marked? && trace[m].hash == trace[f].hash
    ensures Read(trace[f].call, trace[f].hash) in trace[..m]
  {
    hide WasMarked;
    assert Explained(trace[..f], trace[f]);
    var r :| 0 <= r < f && trace[..f][r] == Read(trace[f].call, trace[f].hash);
    assert trace[r] == Read(trace[f].call, trace[f].hash);
    if m < r {
      assert Explained(trace[..r], trace[r]);
      MarkIsSeen(trace, m, r);
      assert false;
    }
    assert trace[..m][r] == trace[r];
  }

  lemma MarkIsSeen(trace: seq<Entry>, m: nat, r: nat)
    requires m < r <= |trace| && trace[m].Marked?
    ensures WasMarked(trace[..r], trace[m].hash)
  {
    assert trace[..r][m] == trace[m];
  }

  // ---------------------------------------------------------------- uninterrupted calls

  /** A verification that nobody interrupts does what the store does in one step. */
  lemma UninterruptedVerify(s: System, call: nat, hash: string) returns (events: seq<Event>)
    requires call !in s.started && call !in s.flights
    ensures ValidRun(s, events) && View(Run(s, events)) == Verified(View(s), hash)
  {
    NoEvents(s);
    hide ValidRun, Run;
    OneMoreEvent(s, [], VerifyBegins(call, hash, false));
    events := [] + [VerifyBegins(call, hash, false)];
    if CacheAnswer(View(s), hash).None? {
      OneMoreEvent(s, events, VerifyReads(call));
      events := events + [VerifyReads(call)];
      if StorageAnswer(s.storage, hash).Some? && Cacheable(StorageAnswer(s.storage, hash).value) {
        OneMoreEvent(s, events, VerifyFills(call, true));
        events := events + [VerifyFills(call, true)];
      }
    }
  }

  lemma NoEvents(s: System)
    ensures ValidRun(s, []) && Run(s, []) == s
  {
  }

  lemma OneMoreEvent(s: System, events: seq<Event>, e: Event)
    requires ValidRun(s, events) && Enabled(Run(s, events), e)
    ensures ValidRun(s, events + [e]) && Run(s, events + [e]) == Step(Run(s, events), e)
  {
    assert (events + [e])[..|events|] == events;
  }

  /** So does a revocation of a known key. */
  lemma UninterruptedRevoke(s: System, call: nat, id: string, now: nat) returns (events: seq<Event>)
    requires call !in s.started && call !in s.flights && ApiKeys.RecordOf(s.storage, id).Some?
    ensures ValidRun(s, events) && View(Run(s, events)) == Revoked(View(s), id, now)
    ensures var hash := s.storage[IdKey(id)].hash; Run(s, events).trace == s.trace + [Marked(call, hash), Evicted(call, hash)]
    ensures Run(s, events).flights == s.flights
  {
    hide ValidRun, Run;
    var es := MarkedThrough(s, call, id, now);
    var hash := s.storage[IdKey(id)].hash;
    OneMoreEvent(s, es, RevokeWrites(call));
    OneMoreEvent(s, es + [RevokeWrites(call)], RevokeEvicts(call, true));
    events := es + [RevokeWrites(call)] + [RevokeEvicts(call, true)];
    assert s.trace + [Marked(call, hash)] + [Evicted(call, hash)] == s.trace + [Marked(call, hash), Evicted(call, hash)];
  }

  lemma MarkedThrough(s: System, call: nat, id: string, now: nat) returns (es: seq<Event>)
    requires call !in s.started && call !in s.flights && ApiKeys.RecordOf(s.storage, id).Some?
    ensures ValidRun(s, es)
    ensures var hash := s.storage[IdKey(id)].hash;
      var record := ApiKeys.RecordOf(s.storage, id).value.(revokedAt := Some(now));
      Run(s, es) == System(s.storage[TokenKey(hash) := RecordValue(record)], s.cache, s.flights[call := WritingOrg(id, hash, record)],
                           s.started + {call}, s.trace + [Marked(call, hash)])
  {
    NoEvents(s);
    hide ValidRun, Run;
    OneMoreEvent(s, [], RevokeBegins(call, id));
    OneMoreEvent(s, [] + [RevokeBegins(call, id)], RevokeReads(call, now));
    OneMoreEvent(s, [] + [RevokeBegins(call, id)] + [RevokeReads(call, now)], RevokeWrites(call));
    es := [] + [RevokeBegins(call, id)] + [RevokeReads(call, now)] + [RevokeWrites(call)];
    assert s.started + {call} + {call} == s.started + {call};
    assert s.started + {call} + {call} + {call} == s.started + {call};
  }

  // ---------------------------------------------------------------- a run that revives a key

  const KEY: Record := Record("k", "h", "ci", "acme", None, 1, None)

  /** The run has revoked the key, storage refuses its token, and a lookup answers it. */
  predicate RevivesRevoked(events: seq<Event>) {
    ValidRun(START, events)
    && var s := Run(START, events);
       s.trace == [Read(1, "h"), Marked(2, "h"), Evicted(2, "h"), Filled(1, "h")] && s.flights == map[]
       && IsRevoked(s.storage, "h") && Answer(View(s), "h") == Some(IdentityOf(KEY))
  }

  /** A verification reads storage, the key is revoked to the end, and the verification
      then fills the cache. */
  lemma LateFillRevivesRevokedKey()
    ensures exists events :: RevivesRevoked(events)
  {
    var es := KeyRead();
    var s := Run(START, es);
    hide ValidRun, Run, Step, Enabled;
    assert ApiKeys.RecordOf(s.storage, "k") == Some(KEY);
    var revoking := UninterruptedRevoke(s, 2, "k", 9);
    RunAppends(START, es, revoking);
    LastFill(es + revoking);
  }

  lemma LastFill(events: seq<Event>)
    requires ValidRun(START, events)
    requires var s := Run(START, events);
      s.flights == map[1 := Filling("h", IdentityOf(KEY))] && s.trace == [Read(1, "h"), Marked(2, "h"), Evicted(2, "h")] && IsRevoked(s.storage, "h")
    ensures RevivesRevoked(events + [VerifyFills(1, true)])
  {
    hide ValidRun, Run;
    OneMoreEvent(START, events, VerifyFills(1, true));
  }

  /** The key created and a verification of its token suspended before its fill. */
  lemma KeyRead() returns (es: seq<Event>)
    ensures ValidRun(START, es)
    ensures Run(START, es) == System(
      map[TokenKey("h") := RecordValue(KEY), IdKey("k") := HashValue("h"), OrgKey("acme", "k") := RecordValue(KEY)], map[],
      map[1 := Filling("h", IdentityOf(KEY))], {0, 1}, [Read(1, "h")])
  {
    es := KeyCreated();
    hide ValidRun, Run, KeyFits, KeyOf;
    OneMoreEvent(START, es, VerifyBegins(1, "h", false));
    OneMoreEvent(START, es + [VerifyBegins(1, "h", false)], VerifyReads(1));
    es := es + [VerifyBegins(1, "h", false)] + [VerifyReads(1)];
  }

  lemma KeyCreated() returns (es: seq<Event>)
    ensures ValidRun(START, es)
    ensures Run(START, es) == System(
      map[TokenKey("h") := RecordValue(KEY), IdKey("k") := HashValue("h"), OrgKey("acme", "k") := RecordValue(KEY)], map[], map[], {0}, [])
  {
    NoEvents(START);
    SmallKeyFits();
    hide ValidRun, Run, KeyFits, KeyOf;
    OneMoreEvent(START, [], CreateBegins(0, KEY));
    OneMoreEvent(START, [] + [CreateBegins(0, KEY)], CreateGoesOn(0));
    OneMoreEvent(START, [] + [CreateBegins(0, KEY)] + [CreateGoesOn(0)], CreateGoesOn(0));
    es := [] + [CreateBegins(0, KEY)] + [CreateGoesOn(0)] + [CreateGoesOn(0)];
  }

  lemma SmallKeyFits()
    ensures KeyFits(KeyOf(OrgKey("acme", "k")))
  {
    var k := ["_auth", "orgs", "acme", "k"];
    AsciiLength("_auth");
    AsciiLength("orgs");
    AsciiLength("acme");
    AsciiLength("k");
    assert k[1..] == ["orgs", "acme", "k"] && k[1..][1..] == ["acme", "k"] && k[1..][1..][1..] == ["k"] && k[1..][1..][1..][1..] == [];
  }

  const CREATED: seq<Op> := [] + [Create(KEY)]
  const VERIFIED: seq<Op> := CREATED + [Verify("h")]
  const REVOKED: seq<Op> := VERIFIED + [Op.Revoke("k", 9)]

  /** One operation at a time: a key is created, its token verified and cached, the cache entry
      expires, and after the revocation the token is refused. */
  lemma KeyLifecycle()
    ensures var s := State(map[], Some(map[]));
      ApiKeys.ValidRun(s, REVOKED + [Verify("h")])
      && Answer(ApiKeys.Run(s, CREATED), "h") == Some(Identity(KEY.name, "acme", None, "h"))
      && CacheAnswer(ApiKeys.Run(s, VERIFIED), "h") == Answer(ApiKeys.Run(s, VERIFIED), "h") == Some(Identity(KEY.name, "acme", None, "h"))
      && CacheAnswer(ApiKeys.Run(s, VERIFIED + [Op.Expire("h")]), "h") == None
      && Answer(ApiKeys.Run(s, REVOKED), "h") == None
      && Answer(ApiKeys.Run(s, REVOKED + [Verify("h")]), "h") == None
  {
    SmallKeyFits();
    hide KeyFits, KeyOf;
    var s := State(map[], Some(map[]));
    OneMoreOp(s, [], Create(KEY));
    OneMoreOp(s, CREATED, Verify("h"));
    OneMoreOp(s, VERIFIED, Op.Expire("h"));
    OneMoreOp(s, VERIFIED, Op.Revoke("k", 9));
    OneMoreOp(s, REVOKED, Verify("h"));
    hide ApiKeys.Run, ApiKeys.ValidRun;
  }

  lemma {:induction false} AsciiLength(s: string)
    requires forall i :: 0 <= i < |s| ==> s[i] < '\U{80}'
    ensures Utf8Length(s) == |s|
  {
    if s != "" { AsciiLength(s[1..]); }
  }

  lemma {:induction false} RunAppends(s: System, before: seq<Event>, after: seq<Event>)
    requires ValidRun(s, before) && ValidRun(Run(s, before), after)
    ensures ValidRun(s, before + after) && Run(s, before + after) == Run(Run(s, before), after)
    decreases |after|
  {
    if after == [] {
      assert before + after == before;
    } else {
      var shorter := after[..|after| - 1];
      assert (before + after)[..|before + after| - 1] == before + shorter;
      RunAppends(s, before, shorter);
    }
  }
}

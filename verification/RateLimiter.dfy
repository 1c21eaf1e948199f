/**
  The multi-tenant token bucket limiter of the gateway (apps/gateway/rate-limiter.ts).

  Timestamps are milliseconds and token counts are exact reals.  `CheckBucket` is
  the value-level meaning of one check; the class below updates its map of buckets
  in place and is proved against it.  A run is a sequence of checks, prunes and
  resets over all scopes and keys.
*/
module RateLimiter {
  import opened Options

  datatype Scope = Ip | Identity | Project

  datatype Config = Config(rate: real, burst: real)

  datatype Configs = Configs(ip: Config, identity: Config, project: Config) {
    function For(scope: Scope): Config {
      match scope
      case Ip => ip
      case Identity => identity
      case Project => project
    }
  }

  datatype Bucket = Bucket(tokens: real, lastRefill: real, lastAccess: real)

  /** A JavaScript number that has been rounded up: division by a zero rate gives
      Infinity, or NaN when the dividend is zero too. */
  datatype Rounded = Finite(n: int) | Infinite | NotANumber

  datatype Decision = Decision(allowed: bool, remaining: int, limit: real, resetMs: Rounded, retryAfterSeconds: Option<Rounded>)

  const MS_PER_SECOND: real := 1000.0
  const TOKEN_COST: real := 1.0
  const DEFAULT_MAX_IDLE_MS: real := 60000.0
  const DEFAULT_LIMITS: Configs := Configs(Config(10.0, 20.0), Config(50.0, 100.0), Config(200.0, 400.0))

  function ScopeName(scope: Scope): string {
    match scope
    case Ip => "ip"
    case Identity => "identity"
    case Project => "project"
  }

  function BucketKey(scope: Scope, key: string): string {
    ScopeName(scope) + ":" + key
  }

  function Min(a: real, b: real): real { if a <= b then a else b }

  function Max(a: real, b: real): real { if a >= b then a else b }

  function Ceil(x: real): int { -((-x).Floor) }

  /** ceil((1 - tokens) / rate), for fewer than one token. */
  function RetryAfter(c: Config, tokens: real): Rounded
    requires tokens < TOKEN_COST
  {
    if c.rate != 0.0 then Finite(Ceil((TOKEN_COST - tokens) / c.rate)) else Infinite
  }

  function ResetMs(c: Config, tokens: real): Rounded {
    if c.rate != 0.0 then Finite(Ceil(Max(0.0, (c.burst - tokens) / c.rate) * MS_PER_SECOND))
    else if c.burst > tokens then Infinite
    else if c.burst < tokens then Finite(0)
    else NotANumber
  }

  /** Tokens present at `now`, before any is taken. */
  function Available(c: Config, b: Option<Bucket>, now: real): real {
    match b
    case None => c.burst
    case Some(b) => Min(c.burst, b.tokens + c.rate * Max(0.0, (now - b.lastRefill) / MS_PER_SECOND))
  }

  function CheckBucket(c: Config, b: Option<Bucket>, now: real): (Bucket, Decision) {
    var tokens := Available(c, b, now);
    if tokens >= TOKEN_COST then
      var left := tokens - TOKEN_COST;
      (Bucket(left, now, now), Decision(true, left.Floor, c.burst, ResetMs(c, left), None))
    else
      (Bucket(tokens, now, now),
       Decision(false, 0, c.burst, ResetMs(c, tokens), Some(RetryAfter(c, tokens))))
  }

  function Lookup(buckets: map<string, Bucket>, k: string): Option<Bucket> {
    if k in buckets then Some(buckets[k]) else None
  }

  /** The buckets a prune keeps. */
  function Pruned(buckets: map<string, Bucket>, maxIdleMs: real, now: real): map<string, Bucket> {
    map k | k in buckets && !(now - buckets[k].lastAccess > maxIdleMs) :: buckets[k]
  }

  class MultiTenantRateLimiter {
    const configs: Configs
    var buckets: map<string, Bucket>

    constructor (ip: Option<Config>, identity: Option<Config>, project: Option<Config>)
      ensures buckets == map[]
      ensures configs == Configs(ip.GetOr(DEFAULT_LIMITS.ip), identity.GetOr(DEFAULT_LIMITS.identity), project.GetOr(DEFAULT_LIMITS.project))
    {
      configs := Configs(ip.GetOr(DEFAULT_LIMITS.ip), identity.GetOr(DEFAULT_LIMITS.identity), project.GetOr(DEFAULT_LIMITS.project));
      buckets := map[];
    }

    method Check(scope: Scope, key: string, now: real) returns (d: Decision)
      modifies this
      ensures buckets == Next(configs, old(buckets), CheckOp(scope, key, now))
      ensures Some(d) == Answer(configs, old(buckets), CheckOp(scope, key, now))
    {
      var config := configs.For(scope);
      var bucketKey := BucketKey(scope, key);
      var bucket: Bucket;
      if bucketKey !in buckets {
        bucket := Bucket(config.burst, now, now);
      } else {
        bucket := buckets[bucketKey];
        var deltaSeconds := Max(0.0, (now - bucket.lastRefill) / MS_PER_SECOND);
        bucket := Bucket(Min(config.burst, bucket.tokens + config.rate * deltaSeconds), now, now);
      }
      assert bucket.tokens == Available(config, Lookup(buckets, bucketKey), now);
      if bucket.tokens >= TOKEN_COST {
        bucket := bucket.(tokens := bucket.tokens - TOKEN_COST);
        d := Decision(true, bucket.tokens.Floor, config.burst, ResetMs(config, bucket.tokens), None);
      } else {
        var retry := RetryAfter(config, bucket.tokens);
        d := Decision(false, 0, config.burst, ResetMs(config, bucket.tokens), Some(retry));
      }
      buckets := buckets[bucketKey := bucket];
    }

    method Reset(scope: Scope, key: string)
      modifies this
      ensures buckets == Next(configs, old(buckets), ResetOp(scope, key))
    {
      buckets := buckets - {BucketKey(scope, key)};
    }

    method Prune(maxIdleMs: real, now: real) returns (prunedCount: nat)
      modifies this
      ensures buckets == Next(configs, old(buckets), PruneOp(maxIdleMs, now))
      ensures prunedCount == |old(buckets)| - |buckets|
      ensures forall k :: k in old(buckets) ==> (k in buckets <==> now - old(buckets)[k].lastAccess <= maxIdleMs)
      ensures forall k :: k in buckets ==> k in old(buckets) && buckets[k] == old(buckets)[k]
    {
      prunedCount := 0;
      var pending := buckets.Keys;
      while pending != {}
        invariant pending <= buckets.Keys <= old(buckets).Keys
        invariant forall k :: k in buckets ==> buckets[k] == old(buckets)[k]
        invariant forall k :: k in old(buckets) && k !in pending ==>
          (k in buckets <==> !(now - old(buckets)[k].lastAccess > maxIdleMs))
        invariant prunedCount == |old(buckets)| - |buckets|
        decreases pending
      {
        var k :| k in pending;
        pending := pending - {k};
        if now - buckets[k].lastAccess > maxIdleMs {
          assert buckets.Keys == (buckets - {k}).Keys + {k};
          buckets := buckets - {k};
          prunedCount := prunedCount + 1;
        }
      }
    }
  }

  // ---------------------------------------------------------------- runs

  datatype Op =
    | CheckOp(scope: Scope, key: string, now: real)
    | PruneOp(maxIdleMs: real, now: real)
    | ResetOp(scope: Scope, key: string)

  function Next(cs: Configs, st: map<string, Bucket>, op: Op): map<string, Bucket> {
    match op
    case CheckOp(scope, key, now) =>
      var k := BucketKey(scope, key);
      st[k := CheckBucket(cs.For(scope), Lookup(st, k), now).0]
    case PruneOp(maxIdleMs, now) => Pruned(st, maxIdleMs, now)
    case ResetOp(scope, key) => st - {BucketKey(scope, key)}
  }

  function Answer(cs: Configs, st: map<string, Bucket>, op: Op): Option<Decision> {
    match op
    case CheckOp(scope, key, now) => Some(CheckBucket(cs.For(scope), Lookup(st, BucketKey(scope, key)), now).1)
    case _ => None
  }

  /** The answers given to the checks of a run, in order. */
  function Answers(cs: Configs, st: map<string, Bucket>, ops: seq<Op>): seq<Decision>
    decreases |ops|
  {
    if ops == [] then []
    else
      var rest := Answers(cs, Next(cs, st, ops[0]), ops[1..]);
      match Answer(cs, st, ops[0])
      case Some(d) => [d] + rest
      case None => rest
  }

  predicate Timed(op: Op) { op.CheckOp? || op.PruneOp? }

  /** Timestamps never go back, starting from `since`. */
  predicate NonDecreasing(ops: seq<Op>, since: real) {
    ops == [] ||
    (if Timed(ops[0]) then since <= ops[0].now && NonDecreasing(ops[1..], ops[0].now)
     else NonDecreasing(ops[1..], since))
  }

  ghost predicate ValidConfigs(cs: Configs) {
    forall scope: Scope :: cs.For(scope).rate >= 0.0 && cs.For(scope).burst >= 0.0
  }

  /** Every bucket holds between zero and burst tokens and was last touched no later than `now`. */
  ghost predicate Bounded(cs: Configs, st: map<string, Bucket>, now: real) {
    forall scope: Scope, key: string :: BucketKey(scope, key) in st ==>
      var b := st[BucketKey(scope, key)];
      0.0 <= b.tokens <= cs.For(scope).burst && b.lastRefill == b.lastAccess <= now
  }

  // ---------------------------------------------------------------- isolation

  lemma BucketKeyInjective(s1: Scope, k1: string, s2: Scope, k2: string)
    ensures BucketKey(s1, k1) == BucketKey(s2, k2) ==> s1 == s2 && k1 == k2
  {
    var a, b := BucketKey(s1, k1), BucketKey(s2, k2);
    if a == b {
      assert a[0] == ScopeName(s1)[0] && b[0] == ScopeName(s2)[0];
      if s1 != s2 {
        assert a[1] == ScopeName(s1)[1] && b[1] == ScopeName(s2)[1];
      }
      var n := |ScopeName(s1)| + 1;
      assert a[n..] == k1 && b[n..] == k2;
    }
  }

  // ---------------------------------------------------------------- refilling

  /** Tokens earned in `ms` milliseconds. */
  function Refill(c: Config, ms: real): real { c.rate * (ms / MS_PER_SECOND) }

  lemma RefillAdds(c: Config, a: real, b: real)
    ensures Refill(c, a + b) == Refill(c, a) + Refill(c, b)
  {
    assert (a + b) / MS_PER_SECOND == a / MS_PER_SECOND + b / MS_PER_SECOND;
  }

  lemma RefillNonNegative(c: Config, ms: real)
    requires c.rate >= 0.0 && ms >= 0.0
    ensures Refill(c, ms) >= 0.0
  {}

  /** With an advancing clock a bucket holds what it had plus what it earned, capped at burst. */
  lemma AvailableAt(c: Config, b: Bucket, now: real)
    requires c.rate >= 0.0 && b.lastRefill <= now
    ensures Available(c, Some(b), now) == Min(c.burst, b.tokens + Refill(c, now - b.lastRefill))
    ensures Refill(c, now - b.lastRefill) >= 0.0
  {
    RefillNonNegative(c, now - b.lastRefill);
  }

  lemma NextKeepsBounded(cs: Configs, st: map<string, Bucket>, since: real, op: Op)
    requires ValidConfigs(cs) && Bounded(cs, st, since)
    requires Timed(op) ==> since <= op.now
    ensures Bounded(cs, Next(cs, st, op), if Timed(op) then op.now else since)
  {
    var st' := Next(cs, st, op);
    forall scope: Scope, key: string | BucketKey(scope, key) in st'
      ensures var b := st'[BucketKey(scope, key)];
        0.0 <= b.tokens <= cs.For(scope).burst
        && b.lastRefill == b.lastAccess <= (if Timed(op) then op.now else since)
    {
      if op.CheckOp? {
        BucketKeyInjective(scope, key, op.scope, op.key);
        if BucketKey(scope, key) == BucketKey(op.scope, op.key) && BucketKey(scope, key) in st {
          AvailableAt(cs.For(scope), st[BucketKey(scope, key)], op.now);
        }
      }
    }
  }

  // ---------------------------------------------------------------- admission bound

  predicate Admits(cs: Configs, st: map<string, Bucket>, op: Op, scope: Scope, key: string) {
    op.CheckOp? && op.scope == scope && op.key == key && Answer(cs, st, op).value.allowed
  }

  /** How many checks of one bucket a run admits at times within [s, t]. */
  function AdmittedIn(cs: Configs, st: map<string, Bucket>, ops: seq<Op>, scope: Scope, key: string, s: real, t: real): nat
    decreases |ops|
  {
    if ops == [] then 0
    else
      (if Admits(cs, st, ops[0], scope, key) && s <= ops[0].now <= t then 1 else 0)
      + AdmittedIn(cs, Next(cs, st, ops[0]), ops[1..], scope, key, s, t)
  }

  /** A prune is harmless when the idle time it demands refills any bucket. */
  ghost predicate SafePrune(cs: Configs, maxIdleMs: real) {
    forall scope: Scope :: Refill(cs.For(scope), maxIdleMs) >= cs.For(scope).burst
  }

  ghost predicate SafePrunes(cs: Configs, ops: seq<Op>) {
    forall i :: 0 <= i < |ops| && ops[i].PruneOp? ==> SafePrune(cs, ops[i].maxIdleMs)
  }

  predicate NoResetOf(ops: seq<Op>, scope: Scope, key: string) {
    forall i :: 0 <= i < |ops| ==> ops[i] != ResetOp(scope, key)
  }

  lemma {:induction false} NothingAdmittedLate(cs: Configs, st: map<string, Bucket>, ops: seq<Op>, since: real, scope: Scope, key: string, s: real, t: real)
    requires NonDecreasing(ops, since) && t < since
    ensures AdmittedIn(cs, st, ops, scope, key, s, t) == 0
    decreases |ops|
  {
    if ops != [] {
      NothingAdmittedLate(cs, Next(cs, st, ops[0]), ops[1..], if Timed(ops[0]) then ops[0].now else since, scope, key, s, t);
    }
  }

  /** The most that can be admitted from `since` up to `t`: what is there plus what will be earned. */
  function Capacity(c: Config, b: Option<Bucket>, since: real, t: real): real {
    match b
    case None => c.burst + Refill(c, t - since)
    case Some(b) => b.tokens + Refill(c, t - b.lastRefill)
  }

  /** One operation pays for what it admits out of the capacity. */
  lemma CapacityPays(cs: Configs, st: map<string, Bucket>, op: Op, since: real, scope: Scope, key: string, t: real)
    requires ValidConfigs(cs) && Bounded(cs, st, since) && since <= t
    requires Timed(op) ==> since <= op.now <= t
    requires op != ResetOp(scope, key)
    requires op.PruneOp? ==> SafePrune(cs, op.maxIdleMs)
    ensures var c, k := cs.For(scope), BucketKey(scope, key);
      (if Admits(cs, st, op, scope, key) then 1.0 else 0.0)
      + Capacity(c, Lookup(Next(cs, st, op), k), if Timed(op) then op.now else since, t)
      <= Capacity(c, Lookup(st, k), since, t)
  {
    var c, k := cs.For(scope), BucketKey(scope, key);
    if !op.PruneOp? { BucketKeyInjective(scope, key, op.scope, op.key); }
    if Timed(op) {
      RefillAdds(c, op.now - since, t - op.now);
      RefillNonNegative(c, op.now - since);
      assert op.now - since + (t - op.now) == t - since;
      if k in st {
        var b := st[k];
        AvailableAt(c, b, op.now);
        RefillAdds(c, op.now - b.lastRefill, t - op.now);
        assert op.now - b.lastRefill + (t - op.now) == t - b.lastRefill;
        if op.PruneOp? && op.now - b.lastAccess > op.maxIdleMs {
          var extra := op.now - b.lastRefill - op.maxIdleMs;
          RefillAdds(c, op.maxIdleMs, extra);
          RefillNonNegative(c, extra);
          assert op.maxIdleMs + extra == op.now - b.lastRefill;
        }
      }
    }
  }

  lemma {:induction false} AdmittedWithinCapacity(cs: Configs, st: map<string, Bucket>, ops: seq<Op>, since: real, scope: Scope, key: string, s: real, t: real)
    requires ValidConfigs(cs) && Bounded(cs, st, since) && NonDecreasing(ops, since) && since <= t
    requires NoResetOf(ops, scope, key) && SafePrunes(cs, ops)
    ensures AdmittedIn(cs, st, ops, scope, key, s, t) as real <= Capacity(cs.For(scope), Lookup(st, BucketKey(scope, key)), since, t)
    decreases |ops|
  {
    var c, k := cs.For(scope), BucketKey(scope, key);
    if ops == [] {
      RefillNonNegative(c, t - since);
      if k in st { RefillNonNegative(c, t - st[k].lastRefill); }
    } else if Timed(ops[0]) && t < ops[0].now {
      NothingAdmittedLate(cs, st, ops, ops[0].now, scope, key, s, t);
      RefillNonNegative(c, t - since);
      if k in st { RefillNonNegative(c, t - st[k].lastRefill); }
    } else {
      NextKeepsBounded(cs, st, since, ops[0]);
      CapacityPays(cs, st, ops[0], since, scope, key, t);
      AdmittedWithinCapacity(cs, Next(cs, st, ops[0]), ops[1..], if Timed(ops[0]) then ops[0].now else since, scope, key, s, t);
    }
  }

  lemma FirstAdmissionInWindow(cs: Configs, st: map<string, Bucket>, op: Op, s: real, t: real)
    requires ValidConfigs(cs) && op.CheckOp? && Answer(cs, st, op).value.allowed && s <= op.now <= t
    ensures var c, k := cs.For(op.scope), BucketKey(op.scope, op.key);
      1.0 + Capacity(c, Lookup(Next(cs, st, op), k), op.now, t) <= c.burst + Refill(c, t - s)
  {
    var c := cs.For(op.scope);
    RefillAdds(c, op.now - s, t - op.now);
    RefillNonNegative(c, op.now - s);
    assert op.now - s + (t - op.now) == t - s;
  }

  /** The first admission in the window accounts for the rest of it. */
  lemma WindowFromFirstAdmission(cs: Configs, st: map<string, Bucket>, ops: seq<Op>, since: real, s: real, t: real)
    requires ValidConfigs(cs) && Bounded(cs, st, since) && NonDecreasing(ops, since)
    requires ops != [] && ops[0].CheckOp? && Answer(cs, st, ops[0]).value.allowed && s <= ops[0].now <= t
    requires NoResetOf(ops, ops[0].scope, ops[0].key) && SafePrunes(cs, ops)
    ensures AdmittedIn(cs, st, ops, ops[0].scope, ops[0].key, s, t) as real <= cs.For(ops[0].scope).burst + Refill(cs.For(ops[0].scope), t - s)
  {
    var op := ops[0];
    NextKeepsBounded(cs, st, since, op);
    AdmittedWithinCapacity(cs, Next(cs, st, op), ops[1..], op.now, op.scope, op.key, s, t);
    FirstAdmissionInWindow(cs, st, op, s, t);
  }

  /** In any window [s, t] of any run, one bucket admits at most burst + rate * (t - s) / 1000 checks. */
  lemma {:induction false} AdmissionBound(cs: Configs, st: map<string, Bucket>, ops: seq<Op>, since: real, scope: Scope, key: string, s: real, t: real)
    requires ValidConfigs(cs) && Bounded(cs, st, since) && NonDecreasing(ops, since) && s <= t
    requires NoResetOf(ops, scope, key) && SafePrunes(cs, ops)
    ensures AdmittedIn(cs, st, ops, scope, key, s, t) as real <= cs.For(scope).burst + Refill(cs.For(scope), t - s)
    decreases |ops|
  {
    if ops == [] {
      RefillNonNegative(cs.For(scope), t - s);
    } else if Admits(cs, st, ops[0], scope, key) && s <= ops[0].now <= t {
      WindowFromFirstAdmission(cs, st, ops, since, s, t);
    } else {
      NextKeepsBounded(cs, st, since, ops[0]);
      AdmissionBound(cs, Next(cs, st, ops[0]), ops[1..], if Timed(ops[0]) then ops[0].now else since, scope, key, s, t);
    }
  }

  // ---------------------------------------------------------------- isolation of buckets

  predicate Concerns(op: Op, scope: Scope, key: string) {
    op.PruneOp? || (op.scope == scope && op.key == key)
  }

  /** The operations a bucket can notice: its own and the prunes. */
  function Only(ops: seq<Op>, scope: Scope, key: string): seq<Op> {
    if ops == [] then []
    else (if Concerns(ops[0], scope, key) then [ops[0]] else []) + Only(ops[1..], scope, key)
  }

  /** The answers to the checks of one bucket, in order. */
  function AnswersFor(cs: Configs, st: map<string, Bucket>, ops: seq<Op>, scope: Scope, key: string): seq<Decision>
    decreases |ops|
  {
    if ops == [] then []
    else
      (if ops[0].CheckOp? && ops[0].scope == scope && ops[0].key == key then [Answer(cs, st, ops[0]).value] else [])
      + AnswersFor(cs, Next(cs, st, ops[0]), ops[1..], scope, key)
  }

  /** Operations on other scopes and keys never change the answers a bucket gives. */
  lemma {:induction false} BucketsAreIsolated(cs: Configs, st: map<string, Bucket>, st': map<string, Bucket>, ops: seq<Op>, scope: Scope, key: string)
    requires Lookup(st, BucketKey(scope, key)) == Lookup(st', BucketKey(scope, key))
    ensures AnswersFor(cs, st, ops, scope, key) == Answers(cs, st', Only(ops, scope, key))
    decreases |ops|
  {
    if ops != [] {
      var op := ops[0];
      if Concerns(op, scope, key) {
        assert Only(ops, scope, key)[1..] == Only(ops[1..], scope, key);
        BucketsAreIsolated(cs, Next(cs, st, op), Next(cs, st', op), ops[1..], scope, key);
      } else {
        BucketKeyInjective(scope, key, op.scope, op.key);
        assert Only(ops, scope, key) == Only(ops[1..], scope, key);
        BucketsAreIsolated(cs, Next(cs, st, op), st', ops[1..], scope, key);
      }
    }
  }

  // ---------------------------------------------------------------- pruning

  function WithoutPrunes(ops: seq<Op>): seq<Op> {
    if ops == [] then []
    else (if ops[0].PruneOp? then [] else [ops[0]]) + WithoutPrunes(ops[1..])
  }

  /** `p` is `u` with some buckets missing that are full again by `now`. */
  ghost predicate PrunedVersion(cs: Configs, p: map<string, Bucket>, u: map<string, Bucket>, now: real) {
    Bounded(cs, u, now) &&
    forall scope: Scope, key: string ::
      var k := BucketKey(scope, key);
      if k in p then k in u && p[k] == u[k]
      else k in u ==> u[k].tokens + Refill(cs.For(scope), now - u[k].lastRefill) >= cs.For(scope).burst
  }

  lemma PrunedVersionLater(cs: Configs, p: map<string, Bucket>, u: map<string, Bucket>, now: real, later: real)
    requires ValidConfigs(cs) && PrunedVersion(cs, p, u, now) && now <= later
    ensures PrunedVersion(cs, p, u, later)
  {
    forall scope: Scope, key: string | BucketKey(scope, key) !in p && BucketKey(scope, key) in u
      ensures var b := u[BucketKey(scope, key)];
        b.tokens + Refill(cs.For(scope), later - b.lastRefill) >= cs.For(scope).burst
    {
      var b := u[BucketKey(scope, key)];
      RefillAdds(cs.For(scope), now - b.lastRefill, later - now);
      RefillNonNegative(cs.For(scope), later - now);
      assert now - b.lastRefill + (later - now) == later - b.lastRefill;
    }
  }

  lemma PruneKeepsPrunedVersion(cs: Configs, p: map<string, Bucket>, u: map<string, Bucket>, op: Op)
    requires ValidConfigs(cs) && op.PruneOp? && SafePrune(cs, op.maxIdleMs) && PrunedVersion(cs, p, u, op.now)
    ensures PrunedVersion(cs, Next(cs, p, op), u, op.now)
  {
    forall scope: Scope, key: string | BucketKey(scope, key) in p && BucketKey(scope, key) !in Next(cs, p, op)
      ensures var b := u[BucketKey(scope, key)];
        b.tokens + Refill(cs.For(scope), op.now - b.lastRefill) >= cs.For(scope).burst
    {
      var b := u[BucketKey(scope, key)];
      var extra := op.now - b.lastRefill - op.maxIdleMs;
      RefillAdds(cs.For(scope), op.maxIdleMs, extra);
      RefillNonNegative(cs.For(scope), extra);
      assert op.maxIdleMs + extra == op.now - b.lastRefill;
    }
  }

  lemma CheckKeepsPrunedVersion(cs: Configs, p: map<string, Bucket>, u: map<string, Bucket>, op: Op)
    requires ValidConfigs(cs) && op.CheckOp? && PrunedVersion(cs, p, u, op.now)
    ensures Answer(cs, p, op) == Answer(cs, u, op)
    ensures PrunedVersion(cs, Next(cs, p, op), Next(cs, u, op), op.now)
  {
    var k := BucketKey(op.scope, op.key);
    NextKeepsBounded(cs, u, op.now, op);
    if k in u { AvailableAt(cs.For(op.scope), u[k], op.now); }
    assert Available(cs.For(op.scope), Lookup(p, k), op.now) == Available(cs.For(op.scope), Lookup(u, k), op.now);
    forall scope: Scope, key: string
      ensures BucketKey(scope, key) == k ==> scope == op.scope
    {
      BucketKeyInjective(scope, key, op.scope, op.key);
    }
  }

  lemma {:induction false} PrunedRunAgrees(cs: Configs, p: map<string, Bucket>, u: map<string, Bucket>, ops: seq<Op>, since: real)
    requires ValidConfigs(cs) && PrunedVersion(cs, p, u, since)
    requires NonDecreasing(ops, since) && SafePrunes(cs, ops)
    ensures Answers(cs, p, ops) == Answers(cs, u, WithoutPrunes(ops))
    decreases |ops|
  {
    if ops != [] {
      var op := ops[0];
      var since' := if Timed(op) then op.now else since;
      PrunedVersionLater(cs, p, u, since, since');
      if op.PruneOp? {
        PruneKeepsPrunedVersion(cs, p, u, op);
        assert WithoutPrunes(ops) == WithoutPrunes(ops[1..]);
        PrunedRunAgrees(cs, Next(cs, p, op), u, ops[1..], since');
      } else {
        if op.CheckOp? { CheckKeepsPrunedVersion(cs, p, u, op); }
        PrunedRunAgrees(cs, Next(cs, p, op), Next(cs, u, op), ops[1..], since');
        assert WithoutPrunes(ops)[1..] == WithoutPrunes(ops[1..]);
      }
    }
  }

  /** Prunes at arbitrary moments change no decision of any run, when every prune
      waits long enough for any bucket to refill. */
  lemma PruningIsUnobservable(cs: Configs, ops: seq<Op>, since: real)
    requires ValidConfigs(cs) && NonDecreasing(ops, since) && SafePrunes(cs, ops)
    ensures Answers(cs, map[], ops) == Answers(cs, map[], WithoutPrunes(ops))
  {
    PrunedRunAgrees(cs, map[], map[], ops, since);
  }

  /** `n` checks of one bucket at one time. */
  function Burst(scope: Scope, at: real, n: nat): seq<Op> {
    if n == 0 then [] else [CheckOp(scope, "k", at)] + Burst(scope, at, n - 1)
  }

  lemma {:induction false} AnswersConcat(cs: Configs, st: map<string, Bucket>, a: seq<Op>, b: seq<Op>)
    ensures Answers(cs, st, a + b) == Answers(cs, st, a) + Answers(cs, Final(cs, st, a), b)
    ensures Final(cs, st, a + b) == Final(cs, Final(cs, st, a), b)
    decreases |a|
  {
    hide Answer, Next;
    if a == [] {
      assert a + b == b;
    } else {
      assert (a + b)[1..] == a[1..] + b;
      AnswersConcat(cs, Next(cs, st, a[0]), a[1..], b);
    }
  }

  lemma {:induction false} WithoutPrunesConcat(a: seq<Op>, b: seq<Op>)
    ensures WithoutPrunes(a + b) == WithoutPrunes(a) + WithoutPrunes(b)
  {
    if a == [] {
      assert a + b == b;
    } else {
      assert (a + b)[1..] == a[1..] + b;
      WithoutPrunesConcat(a[1..], b);
    }
  }

  /** Checks at times that do not go back, between `since` and `at`. */
  predicate ChecksWithin(ops: seq<Op>, since: real, at: real) {
    if ops == [] then since <= at else ops[0].CheckOp? && since <= ops[0].now && ChecksWithin(ops[1..], ops[0].now, at)
  }

  lemma {:induction false} ChecksThen(ops: seq<Op>, since: real, at: real, rest: seq<Op>)
    requires ChecksWithin(ops, since, at) && NonDecreasing(rest, at)
    ensures NonDecreasing(ops + rest, since) && WithoutPrunes(ops) == ops && forall i :: 0 <= i < |ops| ==> ops[i].CheckOp?
  {
    if ops == [] {
      assert ops + rest == rest;
      LaterStart(rest, at, since);
    } else {
      ChecksThen(ops[1..], ops[0].now, at, rest);
      assert (ops + rest)[1..] == ops[1..] + rest;
    }
  }

  lemma {:induction false} LaterStart(ops: seq<Op>, at: real, since: real)
    requires since <= at && NonDecreasing(ops, at)
    ensures NonDecreasing(ops, since)
    decreases |ops|
  {
    if ops != [] && !Timed(ops[0]) { LaterStart(ops[1..], at, since); }
  }

  /** A burst and one more check. */
  lemma {:induction false} BurstWithin(scope: Scope, at: real, n: nat, last: Op, since: real)
    requires since <= at && last.CheckOp? && at <= last.now
    ensures ChecksWithin(Burst(scope, at, n) + [last], since, last.now) && ChecksWithin(Burst(scope, at, n), since, at)
  {
    if n == 0 {
      assert Burst(scope, at, 0) + [last] == [last] && [last][1..] == [];
    } else {
      BurstWithin(scope, at, n - 1, last, at);
      assert (Burst(scope, at, n) + [last])[1..] == Burst(scope, at, n - 1) + [last];
    }
  }

  /** A burst of at most the tokens available spends exactly its number. */
  lemma {:induction false} BurstSpends(cs: Configs, st: map<string, Bucket>, scope: Scope, at: real, n: nat)
    requires n as real <= Available(cs.For(scope), Lookup(st, BucketKey(scope, "k")), at) <= cs.For(scope).burst
    ensures var k, tokens := BucketKey(scope, "k"), Available(cs.For(scope), Lookup(st, BucketKey(scope, "k")), at);
      Final(cs, st, Burst(scope, at, n)) == (if n == 0 then st else st[k := Bucket(tokens - n as real, at, at)])
      && Available(cs.For(scope), Lookup(Final(cs, st, Burst(scope, at, n)), k), at) == tokens - n as real
    decreases n
  {
    if n > 0 {
      var k, op := BucketKey(scope, "k"), CheckOp(scope, "k", at);
      OneSpend(cs, st, scope, at);
      hide Next, Available, BucketKey;
      var next := Next(cs, st, op);
      BurstSpends(cs, next, scope, at, n - 1);
      assert Burst(scope, at, n)[1..] == Burst(scope, at, n - 1);
      assert Final(cs, st, Burst(scope, at, n)) == Final(cs, next, Burst(scope, at, n - 1));
      assert next[k := Bucket(Available(cs.For(scope), Lookup(st, k), at) - n as real, at, at)]
        == st[k := Bucket(Available(cs.For(scope), Lookup(st, k), at) - n as real, at, at)];
    }
  }

  lemma OneSpend(cs: Configs, st: map<string, Bucket>, scope: Scope, at: real)
    requires 1.0 <= Available(cs.For(scope), Lookup(st, BucketKey(scope, "k")), at) <= cs.For(scope).burst
    ensures var tokens := Available(cs.For(scope), Lookup(st, BucketKey(scope, "k")), at);
      Next(cs, st, CheckOp(scope, "k", at)) == st[BucketKey(scope, "k") := Bucket(tokens - 1.0, at, at)]
      && Available(cs.For(scope), Some(Bucket(tokens - 1.0, at, at)), at) == tokens - 1.0
  {
  }

  /** An idle time beyond `maxIdleMs` in which a bucket still earns less than its burst. */
  lemma ShortIdle(c: Config, maxIdleMs: real) returns (idle: real)
    requires c.rate >= 0.0 && Refill(c, maxIdleMs) < c.burst
    ensures idle > maxIdleMs && Refill(c, idle) < c.burst
  {
    var gap := c.burst - Refill(c, maxIdleMs);
    var seconds := ScaledGap(c.rate, gap);
    var step := 1000.0 * seconds;
    idle := maxIdleMs + step;
    RefillAdds(c, maxIdleMs, step);
    assert step / MS_PER_SECOND == seconds;
  }

  lemma ScaledGap(rate: real, gap: real) returns (q: real)
    requires rate >= 0.0 && gap > 0.0
    ensures q > 0.0 && rate * q < gap
  {
    var d := 2.0 * (rate + gap);
    q := gap / d;
    assert q * d == gap;
    assert q > 0.0;
    assert 2.0 * (rate * q) + 2.0 * (gap * q) == gap;
    assert gap * q > 0.0;
  }

  /** The time in which a bucket with a positive rate earns `tokens`. */
  lemma Earns(c: Config, tokens: real) returns (ms: real)
    requires c.rate > 0.0 && tokens >= 0.0
    ensures ms >= 0.0 && Refill(c, ms) == tokens
  {
    var seconds := tokens / c.rate;
    ms := MS_PER_SECOND * seconds;
    assert ms / MS_PER_SECOND == seconds;
  }

  /** The bucket alone, with these tokens left at `at`. */
  function Left(scope: Scope, tokens: real, at: real): map<string, Bucket> { map[BucketKey(scope, "k") := Bucket(tokens, at, at)] }

  lemma {:induction false} AdmittedConcat(cs: Configs, st: map<string, Bucket>, a: seq<Op>, b: seq<Op>, scope: Scope, s: real, t: real)
    ensures AdmittedIn(cs, st, a + b, scope, "k", s, t) == AdmittedIn(cs, st, a, scope, "k", s, t) + AdmittedIn(cs, Final(cs, st, a), b, scope, "k", s, t)
    decreases |a|
  {
    hide Admits, Next;
    if a == [] {
      assert a + b == b;
    } else {
      assert (a + b)[1..] == a[1..] + b;
      AdmittedConcat(cs, Next(cs, st, a[0]), a[1..], b, scope, s, t);
    }
  }

  /** A burst of at most the tokens available is admitted. */
  lemma {:induction false} BurstIsAdmitted(cs: Configs, st: map<string, Bucket>, scope: Scope, at: real, n: nat, s: real, t: real)
    requires n as real <= Available(cs.For(scope), Lookup(st, BucketKey(scope, "k")), at) <= cs.For(scope).burst && s <= at <= t
    ensures AdmittedIn(cs, st, Burst(scope, at, n), scope, "k", s, t) == n
    decreases n
  {
    if n > 0 {
      var op := CheckOp(scope, "k", at);
      OneSpend(cs, st, scope, at);
      OneIsAdmitted(cs, st, scope, at);
      hide Next, Available, BucketKey, Admits;
      BurstIsAdmitted(cs, Next(cs, st, op), scope, at, n - 1, s, t);
      assert Burst(scope, at, n)[1..] == Burst(scope, at, n - 1);
    }
  }

  lemma OneIsAdmitted(cs: Configs, st: map<string, Bucket>, scope: Scope, at: real)
    requires 1.0 <= Available(cs.For(scope), Lookup(st, BucketKey(scope, "k")), at)
    ensures Admits(cs, st, CheckOp(scope, "k", at), scope, "k")
    ensures forall s: real, t: real :: s <= at <= t ==> AdmittedIn(cs, st, [CheckOp(scope, "k", at)], scope, "k", s, t) == 1
  {
    assert [CheckOp(scope, "k", at)][1..] == [];
  }

  /** Checks from empty that spend all whole tokens of the bucket, and then, if it earns any,
      the first whole one it regains; all it had and earned is admitted, but what is left. */
  lemma Spending(cs: Configs, scope: Scope, start: real) returns (ops: seq<Op>, left: real, at: real)
    requires ValidConfigs(cs) && cs.For(scope).burst >= 1.0
    ensures at >= start && ChecksWithin(ops, start, at)
    ensures left == if cs.For(scope).rate > 0.0 then 0.0 else cs.For(scope).burst - cs.For(scope).burst.Floor as real
    ensures 0.0 <= left < 1.0 && Final(cs, map[], ops) == Left(scope, left, at)
    ensures forall s: real, t: real :: s <= start && at <= t ==>
      AdmittedIn(cs, map[], ops, scope, "k", s, t) as real == cs.For(scope).burst - left + Refill(cs.For(scope), at - start)
  {
    var c := cs.For(scope);
    var n := c.burst.Floor;
    left := c.burst - n as real;
    ops := Burst(scope, start, n);
    SpendsWholeTokens(cs, scope, start, n);
    if c.rate == 0.0 {
      at := start;
    } else {
      var gap := Earns(c, 1.0 - left);
      at := start + gap;
      assert at - start == gap;
      SpendsTheRest(cs, scope, start, n, at);
      ops, left := ops + [CheckOp(scope, "k", at)], 0.0;
    }
  }

  lemma SpendsWholeTokens(cs: Configs, scope: Scope, start: real, n: nat)
    requires ValidConfigs(cs) && n == cs.For(scope).burst.Floor
    ensures ChecksWithin(Burst(scope, start, n), start, start)
    ensures n >= 1 ==> Final(cs, map[], Burst(scope, start, n)) == Left(scope, cs.For(scope).burst - n as real, start)
    ensures forall s: real, t: real :: s <= start <= t ==> AdmittedIn(cs, map[], Burst(scope, start, n), scope, "k", s, t) == n
  {
    BurstSpends(cs, map[], scope, start, n);
    BurstWithin(scope, start, n, CheckOp(scope, "k", start), start);
    forall s: real, t: real | s <= start <= t ensures AdmittedIn(cs, map[], Burst(scope, start, n), scope, "k", s, t) == n {
      BurstIsAdmitted(cs, map[], scope, start, n, s, t);
    }
  }

  lemma SpendsTheRest(cs: Configs, scope: Scope, start: real, n: nat, at: real)
    requires ValidConfigs(cs) && cs.For(scope).burst >= 1.0 && n == cs.For(scope).burst.Floor
    requires at >= start && Refill(cs.For(scope), at - start) == 1.0 - (cs.For(scope).burst - n as real)
    ensures var ops := Burst(scope, start, n) + [CheckOp(scope, "k", at)];
      ChecksWithin(ops, start, at) && Final(cs, map[], ops) == Left(scope, 0.0, at)
      && forall s: real, t: real :: s <= start && at <= t ==> AdmittedIn(cs, map[], ops, scope, "k", s, t) == n + 1
  {
    var burst, last := Burst(scope, start, n), CheckOp(scope, "k", at);
    SpendsWholeTokens(cs, scope, start, n);
    BurstWithin(scope, start, n, last, start);
    FirstRegained(cs, scope, cs.For(scope).burst - n as real, start, at);
    hide Left, Final, ChecksWithin, Burst, ValidConfigs, Refill;
    AnswersConcat(cs, map[], burst, [last]);
    forall s: real, t: real | s <= start && at <= t ensures AdmittedIn(cs, map[], burst + [last], scope, "k", s, t) == n + 1 {
      AdmittedConcat(cs, map[], burst, [last], scope, s, t);
    }
  }

  /** Spending the one token a bucket has when it first has one. */
  lemma FirstRegained(cs: Configs, scope: Scope, left: real, start: real, at: real)
    requires ValidConfigs(cs) && cs.For(scope).burst >= 1.0 && 0.0 <= left < 1.0 && at >= start && Refill(cs.For(scope), at - start) == 1.0 - left
    ensures Final(cs, Left(scope, left, start), [CheckOp(scope, "k", at)]) == Left(scope, 0.0, at)
    ensures forall s: real, t: real :: s <= at <= t ==> AdmittedIn(cs, Left(scope, left, start), [CheckOp(scope, "k", at)], scope, "k", s, t) == 1
  {
    AvailableAt(cs.For(scope), Bucket(left, start, start), at);
    OneSpend(cs, Left(scope, left, start), scope, at);
    OneIsAdmitted(cs, Left(scope, left, start), scope, at);
    assert [CheckOp(scope, "k", at)][1..] == [];
  }

  /** A bucket short of its burst and a fresh one are told apart by checks from `at` on: both
      spend the whole tokens of the shorter one, then the fresh one is asked when it first
      has a token. */
  lemma Telling(cs: Configs, scope: Scope, st: map<string, Bucket>, at: real) returns (tail: seq<Op>, last: Op)
    requires ValidConfigs(cs) && cs.For(scope).burst >= 1.0
    requires var k := BucketKey(scope, "k");
      k in st && 0.0 <= Available(cs.For(scope), Some(st[k]), at) < cs.For(scope).burst
      && (cs.For(scope).rate > 0.0 || Available(cs.For(scope), Some(st[k]), at) < 1.0)
    requires st[BucketKey(scope, "k")].lastRefill <= at
    ensures last.CheckOp? && ChecksWithin(tail + [last], at, last.now)
    ensures !Answer(cs, Final(cs, st, tail), last).value.allowed
    ensures Answer(cs, Final(cs, st - {BucketKey(scope, "k")}, tail), last).value.allowed
  {
    var c, k := cs.For(scope), BucketKey(scope, "k");
    var have := Available(c, Some(st[k]), at);
    var m := have.Floor;
    tail := Burst(scope, at, m);
    BurstSpends(cs, st, scope, at, m);
    BurstSpends(cs, st - {k}, scope, at, m);
    var f := c.burst - m as real;
    if f >= 1.0 {
      last := CheckOp(scope, "k", at);
    } else {
      var gap := Earns(c, 1.0 - f);
      last := CheckOp(scope, "k", at + gap);
      AvailableAt(c, Bucket(have - m as real, at, at), at + gap);
      AvailableAt(c, Bucket(f, at, at), at + gap);
      assert at + gap - at == gap;
    }
    BurstWithin(scope, at, m, last, at);
  }

  /** Whether each check was admitted. */
  function Admissions(ds: seq<Decision>): seq<bool> { seq(|ds|, i requires 0 <= i < |ds| => ds[i].allowed) }

  /** A prune that does not wait for a full refill changes whether a check is admitted. */
  lemma EarlyPruneIsObservable(cs: Configs, scope: Scope, maxIdleMs: real) returns (ops: seq<Op>)
    requires ValidConfigs(cs) && cs.For(scope).burst >= 1.0 && maxIdleMs >= 0.0
    requires Refill(cs.For(scope), maxIdleMs) < cs.For(scope).burst
    ensures NonDecreasing(ops, 0.0) && PrunesWith(ops, maxIdleMs)
    ensures Admissions(Answers(cs, map[], ops)) != Admissions(Answers(cs, map[], WithoutPrunes(ops)))
  {
    var spend, left, spent := Spending(cs, scope, 0.0);
    var idle := ShortIdle(cs.For(scope), maxIdleMs);
    var prune := PruneOp(maxIdleMs, spent + idle);
    LeftIsPruned(cs, scope, left, spent, idle, prune);
    var tail, last := Telling(cs, scope, Left(scope, left, spent), prune.now);
    ops := spend + [prune] + (tail + [last]);
    PruneRunShape(spend, prune, tail + [last], last.now, spent);
    hide Answer, Next, Available, BucketKey, Left, Answers, Final, Refill, ChecksWithin, NonDecreasing, PrunesWith;
    AnswersEnd(cs, spend + [prune], tail, last);
    AnswersEnd(cs, spend, tail, last);
    AnswersConcat(cs, map[], spend, [prune]);
    var a, b := Answers(cs, map[], ops), Answers(cs, map[], WithoutPrunes(ops));
    assert Admissions(a)[|a| - 1] != Admissions(b)[|b| - 1];
  }

  /** After idling too long for the prune and too short for its burst the bucket is pruned;
      left alone it would offer less than its burst. */
  lemma LeftIsPruned(cs: Configs, scope: Scope, left: real, spent: real, idle: real, prune: Op)
    requires ValidConfigs(cs) && cs.For(scope).burst >= 1.0 && 0.0 <= left < 1.0 && (cs.For(scope).rate > 0.0 ==> left == 0.0)
    requires prune.PruneOp? && 0.0 <= prune.maxIdleMs < idle && prune.now == spent + idle && Refill(cs.For(scope), idle) < cs.For(scope).burst
    ensures var offer := Available(cs.For(scope), Some(Bucket(left, spent, spent)), prune.now);
      0.0 <= offer < cs.For(scope).burst && (cs.For(scope).rate > 0.0 || offer < 1.0)
    ensures Final(cs, Left(scope, left, spent), [prune]) == map[] == Left(scope, left, spent) - {BucketKey(scope, "k")}
  {
    AvailableAt(cs.For(scope), Bucket(left, spent, spent), prune.now);
    assert spent + idle - spent == idle;
    PruneStep(cs, Left(scope, left, spent), prune);
  }

  lemma PruneStep(cs: Configs, st: map<string, Bucket>, prune: Op)
    requires prune.PruneOp?
    ensures Final(cs, st, [prune]) == Next(cs, st, prune)
  {
    assert [prune][1..] == [];
  }

  lemma PruneRunShape(spend: seq<Op>, prune: Op, checks: seq<Op>, end: real, spent: real)
    requires ChecksWithin(spend, 0.0, spent) && prune.PruneOp? && spent <= prune.now && ChecksWithin(checks, prune.now, end)
    ensures var ops := spend + [prune] + checks;
      NonDecreasing(ops, 0.0) && PrunesWith(ops, prune.maxIdleMs) && WithoutPrunes(ops) == spend + checks
  {
    hide NonDecreasing, WithoutPrunes, PrunesWith, ChecksWithin;
    PruneFirst(prune, checks, end, spent);
    ChecksThen(spend, 0.0, spent, [prune] + checks);
    assert spend + [prune] + checks == spend + ([prune] + checks);
    WithoutPrunesConcat(spend, [prune] + checks);
    PrunesOnce(spend, prune, checks);
  }

  lemma PruneFirst(prune: Op, checks: seq<Op>, end: real, since: real)
    requires prune.PruneOp? && since <= prune.now && ChecksWithin(checks, prune.now, end)
    ensures NonDecreasing([prune] + checks, since) && WithoutPrunes([prune] + checks) == checks
    ensures forall i :: 0 <= i < |checks| ==> checks[i].CheckOp?
  {
    NothingInOrder(end);
    ChecksThen(checks, prune.now, end, []);
    assert checks + [] == checks && ([prune] + checks)[1..] == checks;
  }

  lemma NothingInOrder(since: real)
    ensures NonDecreasing([], since)
  {
  }

  lemma PrunesOnce(spend: seq<Op>, prune: Op, checks: seq<Op>)
    requires prune.PruneOp? && (forall i :: 0 <= i < |spend| ==> spend[i].CheckOp?) && forall i :: 0 <= i < |checks| ==> checks[i].CheckOp?
    ensures PrunesWith(spend + [prune] + checks, prune.maxIdleMs)
  {
    var ops := spend + [prune] + checks;
    assert forall i :: 0 <= i < |spend| ==> ops[i] == spend[i];
    assert ops[|spend|] == prune && forall i :: |spend| < i < |ops| ==> ops[i] == checks[i - |spend| - 1];
  }

  /** The last answer of a run that ends in a check. */
  lemma AnswersEnd(cs: Configs, before: seq<Op>, tail: seq<Op>, last: Op)
    requires last.CheckOp?
    ensures var a := Answers(cs, map[], before + (tail + [last]));
      a != [] && Some(a[|a| - 1]) == Answer(cs, Final(cs, Final(cs, map[], before), tail), last)
  {
    assert before + (tail + [last]) == before + tail + [last];
    AnswersConcat(cs, map[], before + tail, [last]);
    AnswersConcat(cs, map[], before, tail);
    assert [last][1..] == [];
  }

  predicate PrunesWith(ops: seq<Op>, maxIdleMs: real) {
    forall i :: 0 <= i < |ops| && ops[i].PruneOp? ==> ops[i].maxIdleMs == maxIdleMs
  }

  /** No run from empty can tell whether prunes with this idle time happened. */
  ghost predicate Unobservable(cs: Configs, maxIdleMs: real) {
    forall ops: seq<Op> | NonDecreasing(ops, 0.0) && PrunesWith(ops, maxIdleMs) ::
      Answers(cs, map[], ops) == Answers(cs, map[], WithoutPrunes(ops))
  }

  /** No run from empty can tell it from what is admitted. */
  ghost predicate NeverAdmittedOtherwise(cs: Configs, maxIdleMs: real) {
    forall ops: seq<Op> | NonDecreasing(ops, 0.0) && PrunesWith(ops, maxIdleMs) ::
      Admissions(Answers(cs, map[], ops)) == Admissions(Answers(cs, map[], WithoutPrunes(ops)))
  }

  /** Pruning with a given idle time is invisible in every run, in the decisions or only in
      what is admitted, exactly when that time refills every scope's bucket. */
  lemma PruningIsUnobservableIff(cs: Configs, maxIdleMs: real)
    requires ValidConfigs(cs) && maxIdleMs >= 0.0
    requires forall scope: Scope :: cs.For(scope).burst >= 1.0
    ensures Unobservable(cs, maxIdleMs) <==> SafePrune(cs, maxIdleMs)
    ensures NeverAdmittedOtherwise(cs, maxIdleMs) <==> SafePrune(cs, maxIdleMs)
  {
    if SafePrune(cs, maxIdleMs) {
      forall ops: seq<Op> | NonDecreasing(ops, 0.0) && PrunesWith(ops, maxIdleMs)
        ensures Answers(cs, map[], ops) == Answers(cs, map[], WithoutPrunes(ops))
      {
        PruningIsUnobservable(cs, ops, 0.0);
      }
    } else {
      var scope: Scope :| Refill(cs.For(scope), maxIdleMs) < cs.For(scope).burst;
      var ops := EarlyPruneIsObservable(cs, scope, maxIdleMs);
      assert !NeverAdmittedOtherwise(cs, maxIdleMs);
      assert !Unobservable(cs, maxIdleMs);
    }
  }

  /** In every run from empty whose prunes use this idle time, every window of every bucket that
      is not reset keeps to burst + rate * (t - s) / 1000. */
  ghost predicate AlwaysBounded(cs: Configs, maxIdleMs: real) {
    forall ops: seq<Op>, scope: Scope, key: string, s: real, t: real
      | NonDecreasing(ops, 0.0) && PrunesWith(ops, maxIdleMs) && NoResetOf(ops, scope, key) && s <= t ::
      AdmittedIn(cs, map[], ops, scope, key, s, t) as real <= cs.For(scope).burst + Refill(cs.For(scope), t - s)
  }

  /** A prune that does not wait for a full refill lets a bucket spend its burst twice: what it
      had and earned before the prune, and again after it. */
  lemma EarlyPruneExceedsTheBound(cs: Configs, scope: Scope, maxIdleMs: real) returns (ops: seq<Op>, end: real)
    requires ValidConfigs(cs) && cs.For(scope).burst >= 1.0 && maxIdleMs >= 0.0
    requires Refill(cs.For(scope), maxIdleMs) < cs.For(scope).burst
    ensures NonDecreasing(ops, 0.0) && PrunesWith(ops, maxIdleMs) && NoResetOf(ops, scope, "k") && end >= 0.0
    ensures AdmittedIn(cs, map[], ops, scope, "k", 0.0, end) as real > cs.For(scope).burst + Refill(cs.For(scope), end)
  {
    var c := cs.For(scope);
    var spend, left, spent := Spending(cs, scope, 0.0);
    var idle := ShortIdle(c, maxIdleMs);
    var prune := PruneOp(maxIdleMs, spent + idle);
    LeftIsPruned(cs, scope, left, spent, idle, prune);
    var again, _, at := Spending(cs, scope, prune.now);
    ops, end := spend + [prune] + again, at;
    PruneRunShape(spend, prune, again, at, spent);
    NoneIsReset(spend, spent, prune, again, at, scope);
    TwiceIsMore(c, left, spent, idle, at);
    hide Next, Left, Final, Refill, ChecksWithin, NonDecreasing, PrunesWith, NoResetOf, AdmittedIn;
    AdmittedConcat(cs, map[], spend + [prune], again, scope, 0.0, at);
    AdmittedConcat(cs, map[], spend, [prune], scope, 0.0, at);
    AnswersConcat(cs, map[], spend, [prune]);
    PruneAdmitsNothing(cs, Left(scope, left, spent), prune, scope, 0.0, at);
  }

  lemma NoneIsReset(spend: seq<Op>, spent: real, prune: Op, again: seq<Op>, at: real, scope: Scope)
    requires ChecksWithin(spend, 0.0, spent) && prune.PruneOp? && ChecksWithin(again, prune.now, at)
    ensures NoResetOf(spend + [prune] + again, scope, "k")
  {
    NothingInOrder(spent);
    NothingInOrder(at);
    ChecksThen(spend, 0.0, spent, []);
    ChecksThen(again, prune.now, at, []);
    hide ChecksWithin, NonDecreasing, WithoutPrunes;
    var ops := spend + [prune] + again;
    assert forall i :: 0 <= i < |spend| ==> ops[i] == spend[i];
    assert ops[|spend|] == prune && forall i :: |spend| < i < |ops| ==> ops[i] == again[i - |spend| - 1];
  }

  lemma PruneAdmitsNothing(cs: Configs, st: map<string, Bucket>, prune: Op, scope: Scope, s: real, t: real)
    requires prune.PruneOp?
    ensures AdmittedIn(cs, st, [prune], scope, "k", s, t) == 0
  {
    assert [prune][1..] == [];
  }

  /** Two full bursts with what each earned, against one burst and all that was earned. */
  lemma TwiceIsMore(c: Config, left: real, spent: real, idle: real, at: real)
    requires c.rate >= 0.0 && c.burst >= 1.0 && Refill(c, idle) < c.burst
    requires left == if c.rate > 0.0 then 0.0 else c.burst - c.burst.Floor as real
    ensures 2.0 * (c.burst - left) + Refill(c, spent - 0.0) + Refill(c, at - (spent + idle)) > c.burst + Refill(c, at)
  {
    RefillAdds(c, spent, idle);
    RefillAdds(c, spent + idle, at - (spent + idle));
    assert spent + idle + (at - (spent + idle)) == at && spent - 0.0 == spent;
    assert c.rate == 0.0 ==> Refill(c, idle) == 0.0;
    hide Refill;
  }

  /** Prunes with a given idle time keep every run within the admission bound exactly when that
      time refills every scope's bucket. */
  lemma AdmissionBoundIff(cs: Configs, maxIdleMs: real)
    requires ValidConfigs(cs) && maxIdleMs >= 0.0
    requires forall scope: Scope :: cs.For(scope).burst >= 1.0
    ensures AlwaysBounded(cs, maxIdleMs) <==> SafePrune(cs, maxIdleMs)
  {
    if SafePrune(cs, maxIdleMs) {
      forall ops: seq<Op>, scope: Scope, key: string, s: real, t: real
        | NonDecreasing(ops, 0.0) && PrunesWith(ops, maxIdleMs) && NoResetOf(ops, scope, key) && s <= t
        ensures AdmittedIn(cs, map[], ops, scope, key, s, t) as real <= cs.For(scope).burst + Refill(cs.For(scope), t - s)
      {
        AdmissionBound(cs, map[], ops, 0.0, scope, key, s, t);
      }
    } else {
      var scope: Scope :| Refill(cs.For(scope), maxIdleMs) < cs.For(scope).burst;
      var ops, end := EarlyPruneExceedsTheBound(cs, scope, maxIdleMs);
      assert end - 0.0 == end;
    }
  }

  /** Prunes with the default limits and the default idle time are invisible and keep the bound. */
  lemma DefaultPruneIsHarmless()
    ensures ValidConfigs(DEFAULT_LIMITS) && Unobservable(DEFAULT_LIMITS, DEFAULT_MAX_IDLE_MS) && AlwaysBounded(DEFAULT_LIMITS, DEFAULT_MAX_IDLE_MS)
  {
    hide Unobservable, NeverAdmittedOtherwise, AlwaysBounded;
    PruningIsUnobservableIff(DEFAULT_LIMITS, DEFAULT_MAX_IDLE_MS);
    AdmissionBoundIff(DEFAULT_LIMITS, DEFAULT_MAX_IDLE_MS);
  }

  // ---------------------------------------------------------------- what a decision reports

  /** From `resetMs` after a check on, the bucket is full if nothing touches it; a millisecond
      earlier it is not. */
  lemma ResetIsTight(c: Config, b: Option<Bucket>, now: real, later: real)
    requires c.rate > 0.0 && now <= later
    ensures var (bucket, d) := CheckBucket(c, b, now);
      d.resetMs.Finite?
      && (later >= now + d.resetMs.n as real ==> Available(c, Some(bucket), later) == c.burst)
      && (later <= now + (d.resetMs.n - 1) as real ==> Available(c, Some(bucket), later) < c.burst)
  {
    var (bucket, d) := CheckBucket(c, b, now);
    var lacking := c.burst - bucket.tokens;
    AvailableAt(c, bucket, later);
    LackingTakes(c, lacking);
    CeilingMsEarns(c, lacking, later - now);
    hide Refill, Ceil;
  }

  lemma LackingTakes(c: Config, x: real)
    requires c.rate > 0.0 && x >= 0.0
    ensures Max(0.0, x / c.rate) == x / c.rate
  {
    var q := x / c.rate;
    assert q * c.rate == x;
    assert q < 0.0 ==> q * c.rate < 0.0;
  }

  /** The rounded-up milliseconds earn at least x tokens, and one less earns fewer. */
  lemma CeilingMsEarns(c: Config, x: real, ms: real)
    requires c.rate > 0.0
    ensures ms >= Ceil(x / c.rate * MS_PER_SECOND) as real ==> Refill(c, ms) >= x
    ensures ms <= (Ceil(x / c.rate * MS_PER_SECOND) - 1) as real ==> Refill(c, ms) < x
  {
    var q, s := x / c.rate, ms / MS_PER_SECOND;
    assert q * c.rate == x;
    var n := Ceil(q * MS_PER_SECOND);
    assert q * MS_PER_SECOND <= n as real < q * MS_PER_SECOND + 1.0;
    if s >= q { assert (s - q) * c.rate >= 0.0; } else { assert (q - s) * c.rate > 0.0; }
    assert (s - q) * c.rate == Refill(c, ms) - x;
  }

  /** A bucket that earns nothing reports no time at which it will be full, unless it is. */
  lemma ResetWithoutRate(c: Config, b: Option<Bucket>, now: real, later: real)
    requires c.rate == 0.0 && now <= later
    ensures var (bucket, d) := CheckBucket(c, b, now);
      if Available(c, Some(bucket), later) < c.burst then d.resetMs == Infinite else d.resetMs == NotANumber && bucket.tokens == c.burst
  {
    var (bucket, d) := CheckBucket(c, b, now);
    AvailableAt(c, bucket, later);
    assert Refill(c, later - now) == 0.0;
  }

  /** After an admitted check exactly `remaining` more are admitted at the same moment. */
  lemma RemainingIsExact(cs: Configs, st: map<string, Bucket>, scope: Scope, now: real)
    requires ValidConfigs(cs) && Answer(cs, st, CheckOp(scope, "k", now)).value.allowed
    ensures var st', d := Next(cs, st, CheckOp(scope, "k", now)), Answer(cs, st, CheckOp(scope, "k", now)).value;
      d.remaining >= 0 && d.limit == cs.For(scope).burst
      && AdmittedIn(cs, st', Burst(scope, now, d.remaining), scope, "k", now, now) == d.remaining
      && !Answer(cs, Final(cs, st', Burst(scope, now, d.remaining)), CheckOp(scope, "k", now)).value.allowed
  {
    var st', d := Next(cs, st, CheckOp(scope, "k", now)), Answer(cs, st, CheckOp(scope, "k", now)).value;
    var k := BucketKey(scope, "k");
    AvailableAt(cs.For(scope), st'[k], now);
    assert Refill(cs.For(scope), now - now) == 0.0;
    BurstIsAdmitted(cs, st', scope, now, d.remaining, now, now);
    BurstSpends(cs, st', scope, now, d.remaining);
  }

  // ---------------------------------------------------------------- retry-after

  /** From `now` on, the bucket offers what it offered at `tokens` tokens and time `start`. */
  ghost predicate Earning(c: Config, b: Option<Bucket>, tokens: real, start: real, now: real) {
    b.Some? && b.value.lastRefill <= now &&
    Min(c.burst, b.value.tokens + Refill(c, now - b.value.lastRefill)) == Min(c.burst, tokens + Refill(c, now - start))
  }

  lemma EarningLater(c: Config, b: Option<Bucket>, tokens: real, start: real, now: real, later: real)
    requires c.rate >= 0.0 && Earning(c, b, tokens, start, now) && now <= later
    ensures Earning(c, b, tokens, start, later)
    ensures Available(c, b, later) == Min(c.burst, tokens + Refill(c, later - start))
  {
    RefillNonNegative(c, later - now);
    RefillAdds(c, now - b.value.lastRefill, later - now);
    RefillAdds(c, now - start, later - now);
    assert now - b.value.lastRefill + (later - now) == later - b.value.lastRefill;
    assert now - start + (later - now) == later - start;
    AvailableAt(c, b.value, later);
  }

  /** A refused check leaves every later offer of the bucket as it was. */
  lemma RefusalKeepsEarning(c: Config, b: Option<Bucket>, tokens: real, start: real, now: real, at: real)
    requires c.rate >= 0.0 && Earning(c, b, tokens, start, now) && now <= at
    requires !CheckBucket(c, b, at).1.allowed
    ensures Earning(c, Some(CheckBucket(c, b, at).0), tokens, start, at)
  {
    EarningLater(c, b, tokens, start, now, at);
    assert Refill(c, at - at) == 0.0;
  }

  /** No check of this bucket is admitted, and it is neither pruned nor reset. */
  predicate NoneAdmitted(cs: Configs, st: map<string, Bucket>, ops: seq<Op>, scope: Scope, key: string)
    decreases |ops|
  {
    ops == [] ||
    (!ops[0].PruneOp? && ops[0] != ResetOp(scope, key) && !Admits(cs, st, ops[0], scope, key)
     && NoneAdmitted(cs, Next(cs, st, ops[0]), ops[1..], scope, key))
  }

  function Final(cs: Configs, st: map<string, Bucket>, ops: seq<Op>): map<string, Bucket>
    decreases |ops|
  {
    if ops == [] then st else Final(cs, Next(cs, st, ops[0]), ops[1..])
  }

  function LastTime(ops: seq<Op>, since: real): real {
    if ops == [] then since else LastTime(ops[1..], if Timed(ops[0]) then ops[0].now else since)
  }

  lemma {:induction false} StillEarning(cs: Configs, st: map<string, Bucket>, ops: seq<Op>, since: real, scope: Scope, key: string, tokens: real, start: real)
    requires cs.For(scope).rate >= 0.0 && NonDecreasing(ops, since) && NoneAdmitted(cs, st, ops, scope, key)
    requires Earning(cs.For(scope), Lookup(st, BucketKey(scope, key)), tokens, start, since)
    ensures since <= LastTime(ops, since)
    ensures Earning(cs.For(scope), Lookup(Final(cs, st, ops), BucketKey(scope, key)), tokens, start, LastTime(ops, since))
    decreases |ops|
  {
    if ops != [] {
      var op, c, k := ops[0], cs.For(scope), BucketKey(scope, key);
      var since' := if Timed(op) then op.now else since;
      BucketKeyInjective(scope, key, op.scope, op.key);
      EarningLater(c, Lookup(st, k), tokens, start, since, since');
      if op == CheckOp(scope, key, since') {
        RefusalKeepsEarning(c, Lookup(st, k), tokens, start, since, since');
      }
      StillEarning(cs, Next(cs, st, op), ops[1..], since', scope, key, tokens, start);
    }
  }

  /** ceil(x / rate) seconds earn at least x tokens, and one second less earns fewer. */
  lemma CeilingEarns(c: Config, x: real, ms: real)
    requires c.rate > 0.0
    ensures ms >= 1000.0 * Ceil(x / c.rate) as real ==> Refill(c, ms) >= x
    ensures ms <= 1000.0 * (Ceil(x / c.rate) - 1) as real ==> Refill(c, ms) < x
  {
    var q, s := x / c.rate, ms / MS_PER_SECOND;
    assert q * c.rate == x;
    assert q <= Ceil(q) as real < q + 1.0;
    if s >= q {
      assert (s - q) * c.rate >= 0.0;
    } else {
      assert (q - s) * c.rate > 0.0;
    }
    assert (s - q) * c.rate == Refill(c, ms) - x;
  }

  /** After a refusal, whatever refused checks and other traffic come in between, a
      check `retryAfterSeconds` later is admitted and one a second earlier is not. */
  lemma RetryAfterIsTight(cs: Configs, st: map<string, Bucket>, since: real, scope: Scope, key: string, now: real, between: seq<Op>, later: real)
    requires ValidConfigs(cs) && Bounded(cs, st, since) && cs.For(scope).rate > 0.0 && cs.For(scope).burst >= 1.0
    requires NonDecreasing([CheckOp(scope, key, now)] + between, since) && LastTime(between, now) <= later
    requires var refused := CheckOp(scope, key, now);
      !Answer(cs, st, refused).value.allowed && NoneAdmitted(cs, Next(cs, st, refused), between, scope, key)
    ensures var refused := CheckOp(scope, key, now);
      var retry := Answer(cs, st, refused).value.retryAfterSeconds;
      var answer := Answer(cs, Final(cs, Next(cs, st, refused), between), CheckOp(scope, key, later)).value;
      retry.Some? && retry.value.Finite? && retry.value.n >= 1
      && (later >= now + 1000.0 * retry.value.n as real ==> answer.allowed)
      && (later <= now + 1000.0 * (retry.value.n - 1) as real ==> !answer.allowed)
  {
    var c, k, refused := cs.For(scope), BucketKey(scope, key), CheckOp(scope, key, now);
    assert ([refused] + between)[1..] == between;
    var st' := Next(cs, st, refused);
    var b := st'[k];
    assert Refill(c, now - now) == 0.0;
    assert Earning(c, Lookup(st', k), b.tokens, now, now);
    StillEarning(cs, st', between, now, scope, key, b.tokens, now);
    var end := Final(cs, st', between);
    EarningLater(c, Lookup(end, k), b.tokens, now, LastTime(between, now), later);
    CeilingEarns(c, 1.0 - b.tokens, later - now);
    CeilingEarns(c, 1.0 - b.tokens, 0.0);
  }

  /** In particular when nothing happens in between. */
  lemma RetryAfterUndisturbed(cs: Configs, scope: Scope, b: Bucket, now: real, later: real)
    requires ValidConfigs(cs) && cs.For(scope).rate > 0.0 && cs.For(scope).burst >= 1.0
    requires 0.0 <= b.tokens <= cs.For(scope).burst && b.lastRefill == b.lastAccess <= now <= later
    requires !CheckBucket(cs.For(scope), Some(b), now).1.allowed
    ensures var (refused, d) := CheckBucket(cs.For(scope), Some(b), now);
      d.retryAfterSeconds.Some? && d.retryAfterSeconds.value.Finite? && d.retryAfterSeconds.value.n >= 1
      && (later >= now + 1000.0 * d.retryAfterSeconds.value.n as real ==> CheckBucket(cs.For(scope), Some(refused), later).1.allowed)
      && (later <= now + 1000.0 * (d.retryAfterSeconds.value.n - 1) as real ==> !CheckBucket(cs.For(scope), Some(refused), later).1.allowed)
  {
    var st := map[BucketKey(scope, "k") := b];
    assert Bounded(cs, st, now) by {
      forall s: Scope, key: string | BucketKey(s, key) in st ensures s == scope && key == "k" { BucketKeyInjective(s, key, scope, "k"); }
    }
    var refused := CheckOp(scope, "k", now);
    assert [refused] + [] == [refused] && [refused][1..] == [];
    RetryAfterIsTight(cs, st, now, scope, "k", now, [], later);
  }
}

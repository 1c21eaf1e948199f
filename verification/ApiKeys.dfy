/**
  API keys (packages/auth/store.ts): three indexes in primary storage, and a cache of
  identities in front of them whose entries may expire at any moment.
*/
module ApiKeys {
  import opened Options
  import opened Stores
  import opened StoreKeys

  datatype Record = Record(id: string, tokenHash: string, name: string, orgId: string, projectId: Option<string>, createdAt: nat, revokedAt: Option<nat>)

  datatype Identity = Identity(callerId: string, orgId: string, projectId: Option<string>, tokenHash: string)

  datatype Value = RecordValue(record: Record) | HashValue(hash: string)

  /** The three indexes: by token hash, by key id, by organisation and key id. */
  datatype Slot = TokenKey(hash: string) | IdKey(id: string) | OrgKey(orgId: string, id: string)

  type Storage = map<Slot, Value>

  /** `cache` is absent when no cache provider is configured. */
  datatype State = State(storage: Storage, cache: Option<map<string, Identity>>)

  datatype Op =
    | Create(record: Record)
    | Verify(hash: string)
    | Revoke(id: string, now: nat)
    | Expire(hash: string)

  /** The key in primary storage. */
  function KeyOf(slot: Slot): Key {
    match slot
    case TokenKey(hash) => ["_auth", "tokens", hash]
    case IdKey(id) => ["_auth", "keys", id]
    case OrgKey(orgId, id) => ["_auth", "orgs", orgId, id]
  }

  /** Slots are told apart by their keys. */
  lemma KeyOfDecides(a: Slot, b: Slot)
    ensures KeyOf(a) == KeyOf(b) <==> a == b
    ensures |KeyOf(a)| > 2 && KeyOf(a)[0] == "_auth"
  {
    assert "tokens"[0] != "keys"[0] && "tokens"[0] != "orgs"[0] && "keys"[0] != "orgs"[0];
    assert KeyOf(a)[1] == (match a case TokenKey(_) => "tokens" case IdKey(_) => "keys" case OrgKey(_, _) => "orgs");
    assert KeyOf(b)[1] == (match b case TokenKey(_) => "tokens" case IdKey(_) => "keys" case OrgKey(_, _) => "orgs");
    assert KeyOf(a) == KeyOf(b) ==> KeyOf(a)[2] == KeyOf(b)[2] && (|KeyOf(a)| == 4 ==> KeyOf(a)[3] == KeyOf(b)[3]);
  }

  // ---------------------------------------------------------------- what the store does

  function IdentityOf(r: Record): Identity { Identity(r.name, r.orgId, r.projectId, r.tokenHash) }

  /** What primary storage alone says about a token's hash. */
  function StorageAnswer(st: Storage, hash: string): Option<Identity> {
    if TokenKey(hash) in st && st[TokenKey(hash)].RecordValue? && st[TokenKey(hash)].record.revokedAt.None?
    then Some(IdentityOf(st[TokenKey(hash)].record).(tokenHash := hash)) else None
  }

  predicate Cacheable(i: Identity) { i.callerId != "" && i.orgId != "" }

  function CacheAnswer(s: State, hash: string): Option<Identity> {
    if s.cache.Some? && hash in s.cache.value && Cacheable(s.cache.value[hash]) then Some(s.cache.value[hash]) else None
  }

  /** Verification asks the cache first. */
  function Answer(s: State, hash: string): Option<Identity> {
    var cached := CacheAnswer(s, hash);
    if cached.Some? then cached else StorageAnswer(s.storage, hash)
  }

  function Filled(s: State, hash: string, answer: Option<Identity>): State {
    if s.cache.Some? && answer.Some? && Cacheable(answer.value) then s.(cache := Some(s.cache.value[hash := answer.value])) else s
  }

  function Verified(s: State, hash: string): State {
    if CacheAnswer(s, hash).Some? then s else Filled(s, hash, StorageAnswer(s.storage, hash))
  }

  /** The first two indexes are written even when the organisation's key is over the limits and throws. */
  function Created(s: State, r: Record): State {
    var st := s.storage[TokenKey(r.tokenHash) := RecordValue(r)][IdKey(r.id) := HashValue(r.tokenHash)];
    s.(storage := if KeyFits(KeyOf(OrgKey(r.orgId, r.id))) then st[OrgKey(r.orgId, r.id) := RecordValue(r)] else st)
  }

  /** The record a key id leads to. */
  function RecordOf(st: Storage, id: string): Option<Record> {
    if IdKey(id) in st && st[IdKey(id)].HashValue? && st[IdKey(id)].hash != "" then
      var token := TokenKey(st[IdKey(id)].hash);
      if token in st && st[token].RecordValue? then Some(st[token].record) else None
    else None
  }

  function Evicted(cache: Option<map<string, Identity>>, hash: string): Option<map<string, Identity>> {
    match cache case None => None case Some(c) => Some(c - {hash})
  }

  function Revoked(s: State, id: string, now: nat): State {
    var found := RecordOf(s.storage, id);
    if found.None? then s
    else
      var r, hash := found.value.(revokedAt := Some(now)), s.storage[IdKey(id)].hash;
      State(s.storage[TokenKey(hash) := RecordValue(r)][OrgKey(r.orgId, id) := RecordValue(r)], Evicted(s.cache, hash))
  }

  /** Identifiers and tokens are freshly drawn. */
  predicate Fresh(st: Storage, r: Record) {
    r.revokedAt.None? && r.tokenHash != "" && TokenKey(r.tokenHash) !in st && IdKey(r.id) !in st && OrgKey(r.orgId, r.id) !in st
  }

  predicate Enabled(s: State, op: Op) {
    op.Create? ==> Fresh(s.storage, op.record) && KeyFits(KeyOf(OrgKey(op.record.orgId, op.record.id)))
  }

  function Apply(s: State, op: Op): State {
    match op
    case Create(r) => Created(s, r)
    case Verify(hash) => Verified(s, hash)
    case Revoke(id, now) => Revoked(s, id, now)
    case Expire(hash) => s.(cache := Evicted(s.cache, hash))
  }

  predicate ValidRun(s: State, ops: seq<Op>)
    decreases |ops|
  {
    ops == [] || (ValidRun(s, ops[..|ops| - 1]) && Enabled(Run(s, ops[..|ops| - 1]), ops[|ops| - 1]))
  }

  function Run(s: State, ops: seq<Op>): State
    decreases |ops|
  {
    if ops == [] then s else Apply(Run(s, ops[..|ops| - 1]), ops[|ops| - 1])
  }

  lemma OneMoreOp(s: State, ops: seq<Op>, op: Op)
    requires ValidRun(s, ops) && Enabled(Run(s, ops), op)
    ensures ValidRun(s, ops + [op]) && Run(s, ops + [op]) == Apply(Run(s, ops), op)
  {
    assert (ops + [op])[..|ops|] == ops;
  }

  // ---------------------------------------------------------------- the invariant

  ghost predicate TokensLead(st: Storage) {
    forall hash :: TokenKey(hash) in st ==> TokenLeads(st, hash)
  }

  predicate TokenLeads(st: Storage, hash: string)
    requires TokenKey(hash) in st
  {
    var v := st[TokenKey(hash)];
    v.RecordValue? && v.record.tokenHash == hash
    && Lookup(st, IdKey(v.record.id)) == Some(HashValue(hash)) && Lookup(st, OrgKey(v.record.orgId, v.record.id)) == Some(v)
  }

  ghost predicate IdsLead(st: Storage) {
    forall id :: IdKey(id) in st ==>
      st[IdKey(id)].HashValue? && st[IdKey(id)].hash != "" && RecordOf(st, id).Some? && RecordOf(st, id).value.id == id
  }

  ghost predicate OrgsLead(st: Storage) {
    forall orgId, id :: OrgKey(orgId, id) in st ==>
      var v := st[OrgKey(orgId, id)];
      v.RecordValue? && v.record.orgId == orgId && v.record.id == id && Lookup(st, TokenKey(v.record.tokenHash)) == Some(v)
  }

  /** The three indexes describe the same records. */
  ghost predicate IndexesAgree(st: Storage) { TokensLead(st) && IdsLead(st) && OrgsLead(st) }

  /** Cached identities are what storage would answer. */
  ghost predicate CacheAgrees(s: State) {
    s.cache.Some? ==> forall hash :: hash in s.cache.value ==> StorageAnswer(s.storage, hash) == Some(s.cache.value[hash])
  }

  ghost predicate Inv(s: State) { IndexesAgree(s.storage) && CacheAgrees(s) }

  // ---------------------------------------------------------------- every operation keeps it

  lemma CreateKeepsIndexes(s: State, r: Record)
    requires Inv(s) && Fresh(s.storage, r) && KeyFits(KeyOf(OrgKey(r.orgId, r.id)))
    ensures IndexesAgree(Created(s, r).storage)
  {
    hide KeyFits, KeyOf, CacheAgrees;
    var st := Created(s, r).storage;
    forall hash | TokenKey(hash) in st ensures TokenLeads(st, hash) {
      if hash != r.tokenHash { assert TokenLeads(s.storage, hash); }
    }
  }

  lemma CreateKeepsCache(s: State, r: Record)
    requires Inv(s) && Fresh(s.storage, r)
    ensures CacheAgrees(Created(s, r))
  {
    hide KeyFits, KeyOf, IndexesAgree;
  }

  /** A failing third write leaves a token whose organisation does not list it. */
  lemma CreateKeepsInvIff(s: State, r: Record)
    requires Inv(s) && Fresh(s.storage, r)
    ensures Inv(Created(s, r)) <==> KeyFits(KeyOf(OrgKey(r.orgId, r.id)))
  {
    hide KeyFits, KeyOf, IdsLead, OrgsLead, CacheAgrees;
    if KeyFits(KeyOf(OrgKey(r.orgId, r.id))) {
      CreateKeepsIndexes(s, r);
      CreateKeepsCache(s, r);
    } else {
      assert !TokenLeads(Created(s, r).storage, r.tokenHash);
    }
  }

  /** A key of an organisation whose name is longer than a whole storage key may be. */
  const LONG_NAMED: Record := Record("k", "h", "caller", seq(MAX_KEY_BYTES + 1, _ => 'o'), None, 1, None)

  /** Creating it throws, yet its token verifies from then on and its organisation does not list it. */
  lemma LongOrganisationLeavesTwoIndexes()
    ensures var s := State(map[], None); var s' := Created(s, LONG_NAMED);
      Inv(s) && !Inv(s') && Answer(s', "h") == Some(IdentityOf(LONG_NAMED))
      && IdKey("k") in s'.storage && OrgKey(LONG_NAMED.orgId, "k") !in s'.storage
  {
    var key := KeyOf(OrgKey(LONG_NAMED.orgId, "k"));
    LengthIsAtLeast(LONG_NAMED.orgId);
    assert key[1..][1..] == [LONG_NAMED.orgId, "k"];
    assert KeyBytes(key) >= KeyBytes(key[1..]) >= KeyBytes(key[1..][1..]) >= Utf8Length(LONG_NAMED.orgId);
    CreateKeepsInvIff(State(map[], None), LONG_NAMED);
  }

  lemma {:induction false} LengthIsAtLeast(s: string)
    ensures Utf8Length(s) >= |s|
  {
    if s != "" { LengthIsAtLeast(s[1..]); }
  }

  lemma RevokeKeepsTokens(s: State, id: string, now: nat)
    requires Inv(s) && RecordOf(s.storage, id).Some?
    ensures TokensLead(Revoked(s, id, now).storage)
  {
    var st := Revoked(s, id, now).storage;
    assert TokenLeads(s.storage, s.storage[IdKey(id)].hash);
    forall h | TokenKey(h) in st ensures TokenLeads(st, h) {
      assert TokenLeads(s.storage, h);
    }
  }

  lemma RevokeKeepsIds(s: State, id: string, now: nat)
    requires Inv(s) && RecordOf(s.storage, id).Some?
    ensures IdsLead(Revoked(s, id, now).storage)
  {
    hide TokensLead, OrgsLead, CacheAgrees;
  }

  lemma RevokeKeepsOrgs(s: State, id: string, now: nat)
    requires Inv(s) && RecordOf(s.storage, id).Some?
    ensures OrgsLead(Revoked(s, id, now).storage)
  {
    assert TokenLeads(s.storage, s.storage[IdKey(id)].hash);
    hide TokensLead, CacheAgrees, TokenLeads;
  }

  lemma RevokeKeepsCache(s: State, id: string, now: nat)
    requires Inv(s) && RecordOf(s.storage, id).Some?
    ensures CacheAgrees(Revoked(s, id, now))
  {
    hide TokensLead, OrgsLead, IdsLead;
  }

  lemma RevokeKeepsInv(s: State, id: string, now: nat)
    requires Inv(s)
    ensures Inv(Revoked(s, id, now))
  {
    if RecordOf(s.storage, id).Some? {
      RevokeKeepsTokens(s, id, now);
      RevokeKeepsIds(s, id, now);
      RevokeKeepsOrgs(s, id, now);
      RevokeKeepsCache(s, id, now);
      hide Revoked, TokensLead, OrgsLead, IdsLead, CacheAgrees;
    }
  }

  lemma VerifyKeepsInv(s: State, hash: string)
    requires Inv(s)
    ensures Inv(Verified(s, hash)) && Verified(s, hash).storage == s.storage
  {
    hide IndexesAgree;
  }

  lemma OpKeepsInv(s: State, op: Op)
    requires Inv(s) && Enabled(s, op)
    ensures Inv(Apply(s, op))
  {
    hide KeyFits, KeyOf, IndexesAgree, Verified, Revoked, Created;
    match op
    case Create(r) => CreateKeepsInvIff(s, r);
    case Verify(hash) => VerifyKeepsInv(s, hash);
    case Revoke(id, now) => RevokeKeepsInv(s, id, now);
    case Expire(hash) =>
  }

  lemma {:induction false} RunKeepsInv(s: State, ops: seq<Op>)
    requires Inv(s) && ValidRun(s, ops)
    ensures Inv(Run(s, ops))
    decreases |ops|
  {
    hide Inv, Enabled, Apply;
    if ops != [] {
      RunKeepsInv(s, ops[..|ops| - 1]);
      OpKeepsInv(Run(s, ops[..|ops| - 1]), ops[|ops| - 1]);
    }
  }

  /** In every run of operations one at a time, a verification with the cache answers what
      primary storage alone would. */
  lemma {:induction false} CacheIsInvisible(s: State, ops: seq<Op>, hash: string)
    requires s.storage == map[] && (s.cache.Some? ==> s.cache.value == map[]) && ValidRun(s, ops)
    ensures Answer(Run(s, ops), hash) == StorageAnswer(Run(s, ops).storage, hash)
  {
    RunKeepsInv(s, ops);
  }

  /** In every run what is cached names a caller and an organisation. */
  lemma {:induction false} CachedIsComplete(s: State, ops: seq<Op>)
    requires s.storage == map[] && s.cache == Some(map[]) && ValidRun(s, ops)
    ensures var cache := Run(s, ops).cache;
      cache.Some? && forall hash :: hash in cache.value ==> cache.value[hash].callerId != "" && cache.value[hash].orgId != ""
    decreases |ops|
  {
    hide Enabled, Apply, Cacheable;
    if ops != [] {
      CachedIsComplete(s, ops[..|ops| - 1]);
      OpCachesComplete(Run(s, ops[..|ops| - 1]), ops[|ops| - 1]);
    }
  }

  lemma OpCachesComplete(s: State, op: Op)
    requires s.cache.Some? && forall hash :: hash in s.cache.value ==> s.cache.value[hash].callerId != "" && s.cache.value[hash].orgId != ""
    ensures var cache := Apply(s, op).cache;
      cache.Some? && forall hash :: hash in cache.value ==> cache.value[hash].callerId != "" && cache.value[hash].orgId != ""
  {
    hide RecordOf, StorageAnswer, KeyFits, KeyOf;
  }

  /** A token's record is revoked. */
  predicate IsRevoked(st: Storage, hash: string) {
    TokenKey(hash) in st && st[TokenKey(hash)].RecordValue? && st[TokenKey(hash)].record.revokedAt.Some?
  }

  lemma OpKeepsRevoked(s: State, op: Op, hash: string)
    requires Inv(s) && Enabled(s, op) && IsRevoked(s.storage, hash)
    ensures IsRevoked(Apply(s, op).storage, hash)
  {
    if op.Revoke? && RecordOf(s.storage, op.id).Some? {
      assert TokenLeads(s.storage, s.storage[IdKey(op.id)].hash);
    }
  }

  lemma {:induction false} RunKeepsRevoked(s: State, ops: seq<Op>, hash: string)
    requires Inv(s) && ValidRun(s, ops) && IsRevoked(s.storage, hash)
    ensures IsRevoked(Run(s, ops).storage, hash)
    decreases |ops|
  {
    hide Inv, Enabled, Apply, IsRevoked;
    if ops != [] {
      RunKeepsRevoked(s, ops[..|ops| - 1], hash);
      RunKeepsInv(s, ops[..|ops| - 1]);
      OpKeepsRevoked(Run(s, ops[..|ops| - 1]), ops[|ops| - 1], hash);
    }
  }

  /** Once a key has been revoked its token is refused by every later verification. */
  lemma {:induction false} RevokedNeverVerifiesAgain(s: State, id: string, now: nat, ops: seq<Op>)
    requires Inv(s) && RecordOf(s.storage, id).Some? && ValidRun(Revoked(s, id, now), ops)
    ensures Answer(Run(Revoked(s, id, now), ops), RecordOf(s.storage, id).value.tokenHash) == None
  {
    var hash := RecordOf(s.storage, id).value.tokenHash;
    assert TokenLeads(s.storage, s.storage[IdKey(id)].hash);
    RevokeKeepsInv(s, id, now);
    assert IsRevoked(Revoked(s, id, now).storage, hash);
    RunKeepsRevoked(Revoked(s, id, now), ops, hash);
    RunKeepsInv(Revoked(s, id, now), ops);
    hide Inv, Run, ValidRun, Revoked;
    CacheAnswersStorage(Run(Revoked(s, id, now), ops), hash);
  }

  lemma CacheAnswersStorage(s: State, hash: string)
    requires Inv(s)
    ensures Answer(s, hash) == StorageAnswer(s.storage, hash)
  {
  }

  /** A key that was created verifies as its identity until it is revoked, and whatever is
      done to other keys. */
  lemma CreatedVerifies(s: State, r: Record, ops: seq<Op>)
    requires Inv(s) && Enabled(s, Create(r)) && ValidRun(Created(s, r), ops)
    requires forall i :: 0 <= i < |ops| ==> !(ops[i].Revoke? && ops[i].id == r.id)
    ensures Answer(Run(Created(s, r), ops), r.tokenHash) == Some(Identity(r.name, r.orgId, r.projectId, r.tokenHash))
  {
    CreateKeepsInvIff(s, r);
    RunKeepsRecord(Created(s, r), r, ops);
    RunKeepsInv(Created(s, r), ops);
    hide Inv, Run, ValidRun, Created;
    CacheAnswersStorage(Run(Created(s, r), ops), r.tokenHash);
  }

  lemma {:induction false} RunKeepsRecord(s: State, r: Record, ops: seq<Op>)
    requires Inv(s) && ValidRun(s, ops) && Lookup(s.storage, TokenKey(r.tokenHash)) == Some(RecordValue(r))
    requires forall i :: 0 <= i < |ops| ==> !(ops[i].Revoke? && ops[i].id == r.id)
    ensures Lookup(Run(s, ops).storage, TokenKey(r.tokenHash)) == Some(RecordValue(r))
    decreases |ops|
  {
    hide Inv, Enabled, Apply;
    if ops != [] {
      var before := ops[..|ops| - 1];
      assert forall i :: 0 <= i < |before| ==> before[i] == ops[i];
      RunKeepsRecord(s, r, before);
      RunKeepsInv(s, before);
      OpKeepsRecord(Run(s, before), r, ops[|ops| - 1]);
    }
  }

  lemma OpKeepsRecord(s: State, r: Record, op: Op)
    requires Inv(s) && Enabled(s, op) && Lookup(s.storage, TokenKey(r.tokenHash)) == Some(RecordValue(r)) && !(op.Revoke? && op.id == r.id)
    ensures Lookup(Apply(s, op).storage, TokenKey(r.tokenHash)) == Some(RecordValue(r))
  {
    if op.Revoke? && RecordOf(s.storage, op.id).Some? {
      assert TokenLeads(s.storage, s.storage[IdKey(op.id)].hash) && TokenLeads(s.storage, r.tokenHash);
    }
  }

  // ---------------------------------------------------------------- the class

  class ApiKeyStore {
    const hash: string -> string
    const hasCache: bool
    var storage: Storage
    var cache: map<string, Identity>

    function View(): State
      reads this
    {
      State(storage, if hasCache then Some(cache) else None)
    }

    constructor (hash: string -> string, hasCache: bool)
      ensures this.hash == hash && this.hasCache == hasCache
      ensures View() == State(map[], if hasCache then Some(map[]) else None) && Inv(View())
    {
      this.hash, this.hasCache := hash, hasCache;
      storage, cache := map[], map[];
    }

    /** `id` and `rawToken` are freshly drawn.  An error is the storage refusing the key of the organisation index. */
    method CreateKey(name: string, orgId: string, projectId: Option<string>, id: string, rawToken: string, now: nat) returns (r: Option<Record>)
      requires Inv(View()) && Fresh(storage, NewRecord(name, orgId, projectId, id, hash(rawToken), now))
      modifies this
      ensures View() == Created(old(View()), NewRecord(name, orgId, projectId, id, hash(rawToken), now))
      ensures r == if KeyFits(KeyOf(OrgKey(Trim(orgId), id))) then Some(NewRecord(name, orgId, projectId, id, hash(rawToken), now)) else None
      ensures r.Some? <==> Inv(View())
      ensures r.Some? ==>
        var project := if projectId.None? then "" else Trim(projectId.value);
        r.value.id == id && r.value.tokenHash == hash(rawToken) && r.value.name == Trim(name) && r.value.orgId == Trim(orgId)
        && r.value.projectId == (if project == "" then None else Some(project)) && r.value.createdAt == now && r.value.revokedAt == None
    {
      var tokenHash := hash(rawToken);
      var record := NewRecord(name, orgId, projectId, id, tokenHash, now);
      CreateKeepsInvIff(View(), record);
      storage := storage[TokenKey(tokenHash) := RecordValue(record)];
      storage := storage[IdKey(id) := HashValue(tokenHash)];
      if !KeyFits(KeyOf(OrgKey(record.orgId, id))) { return None; }
      storage := storage[OrgKey(record.orgId, id) := RecordValue(record)];
      return Some(record);
    }

    method VerifyRawToken(rawToken: string) returns (r: Option<Identity>)
      requires Inv(View())
      modifies this`cache
      ensures r == if "rfk_" <= rawToken then StorageAnswer(storage, hash(rawToken)) else None
      ensures View() == if "rfk_" <= rawToken then Verified(old(View()), hash(rawToken)) else old(View())
      ensures Inv(View())
    {
      if !("rfk_" <= rawToken) { return None; }
      var tokenHash := hash(rawToken);
      CacheAnswersStorage(View(), tokenHash);
      VerifyKeepsInv(View(), tokenHash);
      if hasCache && tokenHash in cache {
        var cached := cache[tokenHash];
        if cached.callerId != "" && cached.orgId != "" { return Some(cached); }
      }
      if TokenKey(tokenHash) !in storage || !storage[TokenKey(tokenHash)].RecordValue? { return None; }
      var record := storage[TokenKey(tokenHash)].record;
      if record.revokedAt.Some? { return None; }
      var identity := Identity(record.name, record.orgId, record.projectId, tokenHash);
      if hasCache && identity.callerId != "" && identity.orgId != "" {
        cache := cache[tokenHash := identity];
      }
      return Some(identity);
    }

    method RevokeKey(keyId: string, now: nat) returns (r: bool)
      requires Inv(View())
      modifies this
      ensures r == RecordOf(old(storage), keyId).Some? && View() == Revoked(old(View()), keyId, now) && Inv(View())
      ensures !r ==> storage == old(storage) && cache == old(cache)
      ensures r ==>
        var hash := old(storage)[IdKey(keyId)].hash; var record := old(storage)[TokenKey(hash)].record;
        var revoked := RecordValue(record.(revokedAt := Some(now)));
        storage == old(storage)[TokenKey(hash) := revoked][OrgKey(record.orgId, keyId) := revoked]
        && cache == if hasCache then old(cache) - {hash} else old(cache)
    {
      RevokeKeepsInv(View(), keyId, now);
      if IdKey(keyId) !in storage || !storage[IdKey(keyId)].HashValue? || storage[IdKey(keyId)].hash == "" { return false; }
      var tokenHash := storage[IdKey(keyId)].hash;
      if TokenKey(tokenHash) !in storage || !storage[TokenKey(tokenHash)].RecordValue? { return false; }
      var record := storage[TokenKey(tokenHash)].record.(revokedAt := Some(now));
      storage := storage[TokenKey(tokenHash) := RecordValue(record)];
      storage := storage[OrgKey(record.orgId, keyId) := RecordValue(record)];
      if hasCache { cache := cache - {tokenHash}; }
      return true;
    }

    /** Looks at the organisation index only. */
    method HasAnyKeys() returns (r: bool)
      requires Inv(View())
      ensures r <==> exists id :: IdKey(id) in storage
    {
      r := exists slot | slot in storage :: slot.OrgKey?;
      if id :| IdKey(id) in storage {
        assert TokenLeads(storage, storage[IdKey(id)].hash);
      }
      if r {
        var slot :| slot in storage && slot.OrgKey?;
        assert TokenLeads(storage, storage[OrgKey(slot.orgId, slot.id)].record.tokenHash);
      }
    }
  }

  function NewRecord(name: string, orgId: string, projectId: Option<string>, id: string, tokenHash: string, now: nat): Record {
    var project := if projectId.Some? then Trim(projectId.value) else "";
    Record(id, tokenHash, Trim(name), Trim(orgId), if project != "" then Some(project) else None, now, None)
  }
}

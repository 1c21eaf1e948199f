/**
  The key-value and object stores as the control plane sees them: maps with ordered,
  paged listing (primitives/kv/kv-provider.ts, primitives/objects/object-provider.ts,
  limits of docs/contracts/kv.contract.md KV-4).
*/
module Stores {
  import opened Options
  import opened Ulid
  import opened StoreKeys
  import opened KvPaths

  type Bytes = seq<Byte>

  /** A JSON value by its text; a missing key reads as `Null` too. */
  datatype Json = Null | Json(text: string)

  const PAGE_LIMIT: nat := 1000
  const MAX_KEY_SEGMENTS: nat := 32
  const MAX_KEY_BYTES: nat := 512

  function Lookup<K, V>(m: map<K, V>, k: K): Option<V> {
    if k in m then Some(m[k]) else None
  }

  /** The length of a text in UTF-8. */
  function Utf8Length(s: string): nat {
    if s == "" then 0
    else (if s[0] < '\U{80}' then 1 else if s[0] < '\U{800}' then 2 else if s[0] < '\U{10000}' then 3 else 4) + Utf8Length(s[1..])
  }

  function KeyBytes(key: Key): nat {
    if key == [] then 0 else Utf8Length(key[0]) + KeyBytes(key[1..])
  }

  predicate KeyFits(key: Key) { |key| <= MAX_KEY_SEGMENTS && KeyBytes(key) <= MAX_KEY_BYTES }

  /** The length is that of the encoded characters together. */
  lemma Utf8LengthCounts(c: char, s: string)
    ensures Utf8Length([c] + s) == |Utf8(c)| + Utf8Length(s) && Utf8Length("") == 0
  {
    assert ([c] + s)[1..] == s;
  }

  lemma KeyBytesCounts(segment: string, rest: Key)
    ensures KeyBytes([segment] + rest) == Utf8Length(segment) + KeyBytes(rest) && KeyBytes([]) == 0
  {
    assert ([segment] + rest)[1..] == rest;
  }

  /** Thirty-two segments and 512 bytes are the most a key may have. */
  lemma KeyLimits(key: Key)
    ensures KeyFits(key) <==> |key| < 33 && KeyBytes(key) < 513
  {
  }

  // ---------------------------------------------------------------- paged listing

  /** The listing order is that of the keys' path texts, which tell keys apart. */
  ghost predicate TellsApart<K(!new)>(path: K -> string) {
    forall a, b :: path(a) == path(b) ==> a == b
  }

  /** The path by which the key-value store orders its keys. */
  function PathOf(): Key -> string { (k: Key) => EncodePath(k) }

  lemma PathsTellApart()
    ensures TellsApart(PathOf())
  {
    forall a: Key, b: Key | PathOf()(a) == PathOf()(b) ensures a == b {
      EncodePathDecides(a, b);
    }
  }

  predicate After(cursor: Option<string>, path: string) {
    cursor.None? || StringLt(cursor.value, path)
  }

  /** What a listing that has come to `cursor` still has to show. */
  function Remaining<K>(keys: set<K>, path: K -> string, cursor: Option<string>): set<K> {
    set k | k in keys && After(cursor, path(k))
  }

  ghost predicate NoneTwice<K>(s: seq<K>) { forall i, j :: 0 <= i < j < |s| ==> s[i] != s[j] }

  ghost predicate InOrder<K(!new)>(page: seq<K>, path: K -> string) {
    forall i, j :: 0 <= i < j < |page| ==> StringLe(path(page[i]), path(page[j]))
  }

  /** One page: distinct keys not shown before; without a cursor nothing is left, and
      the next cursor leaves exactly the keys this page did not show. */
  ghost predicate IsPage<K(!new)>(page: seq<K>, keys: set<K>, path: K -> string, cursor: Option<string>, next: Option<string>) {
    var todo := Remaining(keys, path, cursor);
    NoneTwice(page) && (forall k :: k in page ==> k in todo)
    && (if next.None? then forall k :: k in todo ==> k in page
        else page != [] && Remaining(keys, path, next) == todo - set k | k in page)
  }

  method FirstOf<K(==)>(keys: set<K>, path: K -> string) returns (k: K)
    requires keys != {}
    ensures k in keys && forall j :: j in keys ==> StringLe(path(k), path(j))
  {
    hide StringLe;
    k :| k in keys;
    StringLeIsTotalOrder(path(k), path(k), "");
    ghost var seen := {k};
    var rest := keys - {k};
    while rest != {}
      invariant rest + seen == keys && k in seen
      invariant forall j :: j in seen ==> StringLe(path(k), path(j))
      decreases rest
    {
      var j :| j in rest;
      StringLeIsTotalOrder(path(k), path(j), "");
      StringLeIsTotalOrder(path(j), path(j), "");
      if !StringLe(path(k), path(j)) {
        forall i | i in seen ensures StringLe(path(j), path(i)) {
          StringLeIsTotalOrder(path(j), path(k), path(i));
        }
        k := j;
      }
      rest, seen := rest - {j}, seen + {j};
    }
  }

  /** After the last key shown, exactly the unshown keys remain. */
  lemma CursorLeavesRest<K(!new)>(keys: set<K>, path: K -> string, cursor: Option<string>, shown: set<K>, last: K, rest: set<K>)
    requires TellsApart(path) && last in shown && shown + rest == Remaining(keys, path, cursor) && shown !! rest
    requires forall k :: k in shown ==> StringLe(path(k), path(last))
    requires forall k :: k in rest ==> StringLe(path(last), path(k))
    ensures Remaining(keys, path, Some(path(last))) == rest
  {
    hide StringLe;
    forall k | k in keys ensures After(Some(path(last)), path(k)) <==> k in rest {
      StringLeIsTotalOrder(path(last), path(k), "");
      if After(Some(path(last)), path(k)) && cursor.Some? {
        StringLeIsTotalOrder(cursor.value, path(last), path(k));
      }
    }
  }

  method ListPage<K(!new,==)>(keys: set<K>, path: K -> string, cursor: Option<string>, limit: nat) returns (page: seq<K>, next: Option<string>)
    requires limit > 0 && TellsApart(path)
    ensures |page| <= limit && IsPage(page, keys, path, cursor, next)
    ensures InOrder(page, path) && (next.Some? ==> |page| == limit)
  {
    hide StringLe, After, TellsApart;
    page := [];
    var rest := Remaining(keys, path, cursor);
    while |page| < limit && rest != {}
      invariant |page| <= limit && NoneTwice(page) && InOrder(page, path)
      invariant (set k | k in page) !! rest && (set k | k in page) + rest == Remaining(keys, path, cursor)
      invariant page != [] ==> forall k :: k in page ==> StringLe(path(k), path(page[|page| - 1]))
      invariant page != [] ==> forall k :: k in rest ==> StringLe(path(page[|page| - 1]), path(k))
      decreases rest
    {
      var k := FirstOf(rest, path);
      assert forall j :: j in page + [k] <==> j in page || j == k;
      StringLeIsTotalOrder(path(k), path(k), "");
      forall j | j in page ensures StringLe(path(j), path(k)) {
        StringLeIsTotalOrder(path(j), path(page[|page| - 1]), path(k));
      }
      page, rest := page + [k], rest - {k};
    }
    if rest == {} { return page, None; }
    CursorLeavesRest(keys, path, cursor, (set k | k in page), page[|page| - 1], rest);
    return page, Some(path(page[|page| - 1]));
  }

  // ---------------------------------------------------------------- the stores

  class KvStore {
    var entries: map<Key, Json>

    constructor ()
      ensures entries == map[]
    {
      entries := map[];
    }

    /** `None` when the key is over the limits and the call throws. */
    method Get(key: Key) returns (r: Option<Json>)
      ensures r == if KeyFits(key) then Some(Lookup(entries, key).GetOr(Null)) else None
    {
      if !KeyFits(key) { return None; }
      return Some(if key in entries then entries[key] else Null);
    }

    method Set(key: Key, value: Json) returns (ok: bool)
      modifies this
      ensures ok == KeyFits(key)
      ensures entries == if ok then old(entries)[key := value] else old(entries)
    {
      ok := KeyFits(key);
      if ok { entries := entries[key := value]; }
    }

    /** The keys a listing selects: all under the prefix, and others whose path matches. */
    function Matching(prefix: Key): set<Key>
      reads this
    {
      set k | k in entries && Listed(prefix, k)
    }

    method List(prefix: Key, cursor: Option<string>) returns (page: seq<Key>, next: Option<string>)
      ensures |page| <= PAGE_LIMIT && IsPage(page, Matching(prefix), PathOf(), cursor, next)
      ensures InOrder(page, PathOf()) && (next.Some? ==> |page| == PAGE_LIMIT)
    {
      PathsTellApart();
      page, next := ListPage(Matching(prefix), PathOf(), cursor, PAGE_LIMIT);
    }
  }

  class ObjectStore {
    var objects: map<string, Bytes>

    constructor ()
      ensures objects == map[]
    {
      objects := map[];
    }

    method Get(key: string) returns (r: Option<Bytes>)
      ensures r == Lookup(objects, key)
    {
      return if key in objects then Some(objects[key]) else None;
    }

    method Put(key: string, data: Bytes)
      modifies this
      ensures objects == old(objects)[key := data]
    {
      objects := objects[key := data];
    }

    function Under(prefix: string): set<string>
      reads this
    {
      set k | k in objects && prefix <= k
    }

    method List(prefix: string, cursor: Option<string>) returns (page: seq<string>, next: Option<string>)
      ensures |page| <= PAGE_LIMIT && IsPage(page, Under(prefix), (k: string) => k, cursor, next)
      ensures InOrder(page, (k: string) => k) && (next.Some? ==> |page| == PAGE_LIMIT)
    {
      page, next := ListPage(Under(prefix), (k: string) => k, cursor, PAGE_LIMIT);
    }
  }
}

/**
  Tenant keys as text (apps/api/state-backup-service.ts): how they are built, split at
  the first slash, joined, and which texts an import refuses.
*/
module StoreKeys {
  import opened Options

  /** A hierarchical key, segment by segment. */
  type Key = seq<string>

  const UPPER: string := "ABCDEFGHIJKLMNOPQRSTUVWXYZ"
  const LOWER: string := "abcdefghijklmnopqrstuvwxyz"
  const DIGITS: string := "0123456789"

  /** A list of consecutive characters holds exactly those between its ends. */
  lemma CharIsListed(c: char, first: char, list: string)
    requires forall i :: 0 <= i < |list| ==> list[i] as int == first as int + i
    ensures c in list <==> first as int <= c as int < first as int + |list|
  {
    if first as int <= c as int < first as int + |list| { assert list[c as int - first as int] == c; }
  }

  predicate Contains(s: string, part: string) {
    exists i :: 0 <= i <= |s| - |part| && s[i..][..|part|] == part
  }

  function LowerAscii(s: string): (r: string)
    ensures |r| == |s|
  {
    seq(|s|, i requires 0 <= i < |s| => if 'A' <= s[i] <= 'Z' then s[i] + 32 as char else s[i])
  }

  predicate IsSpace(c: char) {
    '\t' <= c <= '\r' || c == ' ' || c == '\U{A0}' || c == '\U{1680}' || '\U{2000}' <= c <= '\U{200A}'
    || c == '\U{2028}' || c == '\U{2029}' || c == '\U{202F}' || c == '\U{205F}' || c == '\U{3000}' || c == '\U{FEFF}'
  }

  function TrimStart(s: string): string {
    if s != "" && IsSpace(s[0]) then TrimStart(s[1..]) else s
  }

  function Trim(s: string): string
    decreases |s|
  {
    if s != "" && IsSpace(s[|s| - 1]) then Trim(s[..|s| - 1]) else TrimStart(s)
  }

  predicate ValidIdentifier(id: string) {
    var t := Trim(id);
    t != "" && '/' !in t && '\\' !in t && '\0' !in t && ':' !in t && !Contains(t, "..") && !Contains(LowerAscii(t), "%2e%2e")
    && forall i :: 0 <= i < |t| ==> t[i] > '\U{1F}' && t[i] != '\U{7F}'
  }

  predicate HasPathTraversal(s: string) {
    Contains(s, "..") || '\\' in s || '\0' in s || Contains(LowerAscii(s), "%2e%2e")
  }

  /** Two dots in a row from `i` on. */
  predicate DotsAt(s: string, i: nat) { i + 2 <= |s| && s[i] == '.' && s[i + 1] == '.' }

  /** Two percent-encoded dots in a row, in either case. */
  predicate EncodedDotsAt(s: string, i: nat) {
    i + 6 <= |s| && s[i] == '%' && s[i + 1] == '2' && s[i + 2] in "eE" && s[i + 3] == '%' && s[i + 4] == '2' && s[i + 5] in "eE"
  }

  /** No way up: no two dots in a row, plain or encoded, no backslash and no NUL. */
  predicate Harmless(s: string) {
    forall i :: 0 <= i < |s| ==> s[i] != '\\' && s[i] != '\0' && !DotsAt(s, i) && !EncodedDotsAt(s, i)
  }

  lemma ContainsIff(s: string, part: string)
    ensures Contains(s, part) <==> exists a: string, b: string :: s == a + part + b
  {
    if Contains(s, part) {
      var i :| 0 <= i <= |s| - |part| && s[i..][..|part|] == part;
      assert s == s[..i] + part + s[i + |part|..];
    }
    if exists a: string, b: string :: s == a + part + b {
      var a: string, b: string :| s == a + part + b;
      assert s[|a|..][..|part|] == part;
    }
  }

  lemma DotsIff(s: string)
    ensures Contains(s, "..") <==> exists i :: 0 <= i < |s| && DotsAt(s, i)
  {
    if Contains(s, "..") {
      var i :| 0 <= i <= |s| - 2 && s[i..][..2] == "..";
      assert s[i..][..2][0] == s[i] && s[i..][..2][1] == s[i + 1];
      assert DotsAt(s, i);
    }
    if exists i :: 0 <= i < |s| && DotsAt(s, i) {
      var i :| 0 <= i < |s| && DotsAt(s, i);
      assert s[i..][..2] == "..";
    }
  }

  lemma EncodedDotsIff(s: string)
    ensures Contains(LowerAscii(s), "%2e%2e") <==> exists i :: 0 <= i < |s| && EncodedDotsAt(s, i)
  {
    var l := LowerAscii(s);
    hide EncodedDotsAt, LowerAscii;
    if Contains(l, "%2e%2e") {
      var i :| 0 <= i <= |l| - 6 && l[i..][..6] == "%2e%2e";
      EncodedDotsAtIff(s, i);
    }
    if exists i :: 0 <= i < |s| && EncodedDotsAt(s, i) {
      var i :| 0 <= i < |s| && EncodedDotsAt(s, i);
      EncodedDotsFit(s, i);
      EncodedDotsAtIff(s, i);
    }
  }

  lemma EncodedDotsFit(s: string, i: nat)
    requires EncodedDotsAt(s, i)
    ensures i + 6 <= |s|
  {
  }

  lemma EncodedDotsAtIff(s: string, i: nat)
    requires i + 6 <= |s|
    ensures LowerAscii(s)[i..][..6] == "%2e%2e" <==> EncodedDotsAt(s, i)
  {
    LowerE(s);
    var w := LowerAscii(s)[i..][..6];
    hide LowerAscii;
    assert w[0] == LowerAscii(s)[i] && w[1] == LowerAscii(s)[i + 1] && w[2] == LowerAscii(s)[i + 2];
    assert w[3] == LowerAscii(s)[i + 3] && w[4] == LowerAscii(s)[i + 4] && w[5] == LowerAscii(s)[i + 5];
    assert w == "%2e%2e" <==> w[0] == '%' && w[1] == '2' && w[2] == 'e' && w[3] == '%' && w[4] == '2' && w[5] == 'e';
  }

  lemma LowerE(s: string)
    ensures forall i :: 0 <= i < |s| ==> (LowerAscii(s)[i] == 'e' <==> s[i] in "eE")
    ensures forall i, c :: 0 <= i < |s| && c in "%2" ==> (LowerAscii(s)[i] == c <==> s[i] == c)
  {
  }

  predicate AllSpace(s: string) { forall i :: 0 <= i < |s| ==> IsSpace(s[i]) }

  predicate NoOuterSpace(s: string) { s != "" ==> !IsSpace(s[0]) && !IsSpace(s[|s| - 1]) }

  lemma {:induction false} TrimStartCuts(s: string) returns (cut: string)
    ensures s == cut + TrimStart(s) && AllSpace(cut) && (TrimStart(s) != "" ==> !IsSpace(TrimStart(s)[0]))
  {
    if s != "" && IsSpace(s[0]) {
      var rest := TrimStartCuts(s[1..]);
      cut := [s[0]] + rest;
      assert s == [s[0]] + s[1..];
    } else {
      cut := "";
    }
  }

  /** Trimming takes white space off both ends, and all of it. */
  lemma {:induction false} TrimCuts(s: string) returns (before: string, after: string)
    ensures s == before + Trim(s) + after && AllSpace(before) && AllSpace(after) && NoOuterSpace(Trim(s))
    decreases |s|
  {
    var n := |s| - 1;
    if s != "" && IsSpace(s[n]) {
      before, after := TrimCuts(s[..n]);
      after := after + [s[n]];
      assert s == s[..n] + [s[n]];
    } else {
      before := TrimStartCuts(s);
      after := "";
      assert s == before + Trim(s);
      if Trim(s) != "" { assert Trim(s)[|Trim(s)| - 1] == s[n]; }
    }
  }

  /** What a tenant's identifier may hold once trimmed, character by character. */
  lemma ValidIdentifierIff(id: string)
    ensures ValidIdentifier(id) <==>
      Trim(id) != "" && Harmless(Trim(id))
      && forall i :: 0 <= i < |Trim(id)| ==> Trim(id)[i] !in "/:\U{7F}" && Trim(id)[i] >= ' '
  {
    TraversalIff(Trim(id));
    hide Trim, Contains, Harmless;
  }

  /** What an import refuses, character by character. */
  lemma TraversalIff(s: string)
    ensures HasPathTraversal(s) <==> !Harmless(s)
  {
    DotsIff(s);
    EncodedDotsIff(s);
    hide Contains, DotsAt, EncodedDotsAt;
  }

  function IndexOf(s: string, c: char): (r: Option<nat>)
    ensures r.Some? ==> r.value < |s| && s[r.value] == c && c !in s[..r.value]
    ensures r.None? ==> c !in s
  {
    if s == "" then None
    else if s[0] == c then Some(0)
    else
      var r := IndexOf(s[1..], c);
      assert r.Some? ==> s[..r.value + 1] == [s[0]] + s[1..][..r.value];
      if r.Some? then Some(r.value + 1) else None
  }

  function JoinBy(sep: char, parts: seq<string>): string {
    if parts == [] then "" else if |parts| == 1 then parts[0] else parts[0] + [sep] + JoinBy(sep, parts[1..])
  }

  function Join(key: Key): string { JoinBy('/', key) }

  // ---------------------------------------------------------------- object keys

  function ObjectPrefix(org: string, project: string): string { org + "/" + project + "/" }

  function ObjectKey(org: string, project: string, store: string, key: string): string {
    org + "/" + project + "/" + store + "/" + key
  }

  function CasKey(sha256: string): string { "artifacts/" + sha256 }

  lemma KeyUnderPrefix(org: string, project: string, store: string, key: string)
    ensures ObjectKey(org, project, store, key) == ObjectPrefix(org, project) + (store + "/" + key)
  {
  }

  lemma SepAfter(sep: char, a: string, x: string)
    requires sep !in a
    ensures var s := a + [sep] + x; s[|a|] == sep && s[..|a|] == a && s[|a| + 1..] == x && forall i :: 0 <= i < |a| ==> s[i] != sep
  {
  }

  /** Two texts cut at a first separator are equal only part by part. */
  lemma FirstSepDecides(sep: char, a: string, x: string, b: string, y: string)
    requires sep !in a && sep !in b && a + [sep] + x == b + [sep] + y
    ensures a == b && x == y
  {
    SepAfter(sep, a, x);
    SepAfter(sep, b, y);
    assert |a| == |b|;
  }

  /** Splitting at the first slash undoes building the key, and the other way round. */
  lemma SplitInvertsBuild(org: string, project: string, store: string, key: string)
    requires '/' !in store
    ensures var rel := ObjectKey(org, project, store, key)[|ObjectPrefix(org, project)|..];
      var slash := IndexOf(rel, '/');
      slash.Some? && rel[..slash.value] == store && rel[slash.value + 1..] == key
  {
    KeyUnderPrefix(org, project, store, key);
    var rel := store + "/" + key;
    assert ObjectKey(org, project, store, key)[|ObjectPrefix(org, project)|..] == rel;
    assert rel[|store|] == '/';
    SepAfter('/', store, key);
    var at := IndexOf(rel, '/').value;
    assert forall i :: 0 <= i < at ==> rel[i] == rel[..at][i] && rel[i] != '/';
    assert at == |store|;
  }

  lemma BuildInvertsSplit(org: string, project: string, full: string, slash: nat)
    requires ObjectPrefix(org, project) <= full
    requires var rel := full[|ObjectPrefix(org, project)|..]; IndexOf(rel, '/') == Some(slash)
    ensures var rel := full[|ObjectPrefix(org, project)|..];
      full == ObjectKey(org, project, rel[..slash], rel[slash + 1..]) && '/' !in rel[..slash]
  {
    var rel := full[|ObjectPrefix(org, project)|..];
    assert full == ObjectPrefix(org, project) + rel;
    assert rel == rel[..slash] + "/" + rel[slash + 1..];
    KeyUnderPrefix(org, project, rel[..slash], rel[slash + 1..]);
  }

  lemma ObjectKeyIsInjective(org: string, project: string, store: string, key: string, store': string, key': string)
    requires '/' !in store && '/' !in store'
    requires ObjectKey(org, project, store, key) == ObjectKey(org, project, store', key')
    ensures store == store' && key == key'
  {
    SplitInvertsBuild(org, project, store, key);
    SplitInvertsBuild(org, project, store', key');
  }

  /** Content-addressed payloads lie outside every project's prefix. */
  lemma CasIsNobodys(org: string, project: string, sha256: string)
    requires '/' !in sha256
    ensures !(ObjectPrefix(org, project) <= CasKey(sha256))
  {
    var p, k := ObjectPrefix(org, project), CasKey(sha256);
    assert p[|org|] == '/' && p[|org| + 1 + |project|] == '/';
    assert k[9] == '/' && forall i :: 0 <= i < |k| && k[i] == '/' ==> i == 9;
    if p <= k {
      assert false;
    }
  }

  // ---------------------------------------------------------------- joined keys

  predicate FreeOf(sep: char, parts: seq<string>) { forall i :: 0 <= i < |parts| ==> sep !in parts[i] }

  predicate SlashFree(key: Key) { FreeOf('/', key) }

  lemma JoinHasSepIff(sep: char, parts: seq<string>)
    requires parts != [] && FreeOf(sep, parts)
    ensures sep in JoinBy(sep, parts) <==> |parts| > 1
  {
    if |parts| > 1 { assert JoinBy(sep, parts)[|parts[0]|] == sep; }
  }

  /** Texts free of the separator can be told apart after joining. */
  lemma {:induction false} FreeJoinDecides(sep: char, a: seq<string>, b: seq<string>)
    requires a != [] && b != [] && FreeOf(sep, a) && FreeOf(sep, b)
    ensures JoinBy(sep, a) == JoinBy(sep, b) <==> a == b
  {
    if JoinBy(sep, a) == JoinBy(sep, b) {
      JoinHasSepIff(sep, a);
      JoinHasSepIff(sep, b);
      if |a| > 1 && |b| > 1 {
        FirstSepDecides(sep, a[0], JoinBy(sep, a[1..]), b[0], JoinBy(sep, b[1..]));
        FreeJoinDecides(sep, a[1..], b[1..]);
        assert a == [a[0]] + a[1..] && b == [b[0]] + b[1..];
      }
    }
  }

  lemma SlashFreeJoinDecides(a: Key, b: Key)
    requires a != [] && b != [] && SlashFree(a) && SlashFree(b)
    ensures Join(a) == Join(b) <==> a == b
  {
    FreeJoinDecides('/', a, b);
  }
}

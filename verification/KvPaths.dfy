/**
  How SQLite stores keys and lists a prefix (providers/kv/sqlite-provider.ts): segments
  are percent-encoded and joined, and a listing selects paths with LIKE, where `_` stands
  for any character, `%` for any text, and letter case does not count.
*/
module KvPaths {
  import opened Options
  import opened Ulid
  import opened StoreKeys

  // ---------------------------------------------------------------- key paths

  /** Characters encodeURIComponent leaves as they are. */
  predicate Unreserved(c: char) {
    'A' <= c <= 'Z' || 'a' <= c <= 'z' || '0' <= c <= '9' || c in "-_.!~*'()"
  }

  function Utf8(c: char): (bs: seq<Byte>)
    ensures 1 <= |bs| <= 4
  {
    var n := c as int;
    if n < 0x80 then [n]
    else if n < 0x800 then [192 + n / 64, 128 + n % 64]
    else if n < 0x10000 then [224 + n / 4096, 128 + (n / 64) % 64, 128 + n % 64]
    else [240 + n / 262144, 128 + (n / 4096) % 64, 128 + (n / 64) % 64, 128 + n % 64]
  }

  const HEX: string := "0123456789ABCDEF"

  function PercentByte(b: Byte): string { ['%', HEX[b / 16], HEX[b % 16]] }

  function Percent(bs: seq<Byte>): string { if bs == [] then "" else PercentByte(bs[0]) + Percent(bs[1..]) }

  function EncodeChar(c: char): string { if Unreserved(c) then [c] else Percent(Utf8(c)) }

  function EncodeSegment(s: string): string { if s == "" then "" else EncodeChar(s[0]) + EncodeSegment(s[1..]) }

  function EncodePath(key: Key): string { if key == [] then "" else EncodeSegment(key[0]) + ['/'] + EncodePath(key[1..]) }

  lemma UnreservedIff(c: char)
    ensures Unreserved(c) <==> c in UPPER || c in LOWER || c in DIGITS || c in "-_.!~*'()"
  {
    CharIsListed(c, 'A', UPPER);
    CharIsListed(c, 'a', LOWER);
    CharIsListed(c, '0', DIGITS);
  }

  /** The six payload bits of a continuation byte. */
  function LowBits(b: Byte): int { b as int - 0x80 }

  predicate Continues(b: Byte) { 0x80 <= b < 0xC0 }

  /** The bytes of a character read back as its code, in the shortest form. */
  lemma Utf8Reads(c: char)
    ensures var bs, n := Utf8(c), c as int;
      (forall i :: 1 <= i < |bs| ==> Continues(bs[i]))
      && match |bs|
         case 1 => n < 0x80 && n == bs[0] as int
         case 2 => 0x80 <= n < 0x800 && n == (bs[0] as int - 0xC0) * 0x40 + LowBits(bs[1])
         case 3 => 0x800 <= n < 0x10000 && n == (bs[0] as int - 0xE0) * 0x1000 + LowBits(bs[1]) * 0x40 + LowBits(bs[2])
         case _ => 0x10000 <= n && n == (bs[0] as int - 0xF0) * 0x40000 + LowBits(bs[1]) * 0x1000 + LowBits(bs[2]) * 0x40 + LowBits(bs[3])
  {
    var n := c as int;
    assert n / 64 / 64 == n / 4096 && n / 4096 / 64 == n / 262144;
  }

  /** A byte is written as a percent sign and its two hexadecimal digits, the higher first. */
  lemma PercentByteReads(b: Byte)
    ensures exists i, j :: IsPercentOf(b, i, j)
  {
    assert IsPercentOf(b, b as int / 16, b as int % 16);
  }

  predicate IsPercentOf(b: Byte, i: int, j: int) {
    0 <= i < 16 && 0 <= j < 16 && b as int == 16 * i + j && PercentByte(b) == ['%', "0123456789ABCDEF"[i], "0123456789ABCDEF"[j]]
  }

  lemma HexDecides(i: nat, j: nat)
    requires i < 16 && j < 16 && HEX[i] == HEX[j]
    ensures i == j
  {
    assert forall a, b :: 0 <= a < b < 16 ==> HEX[a] != HEX[b];
  }

  lemma PercentByteDecides(a: Byte, b: Byte, x: string, y: string)
    requires PercentByte(a) + x == PercentByte(b) + y
    ensures a == b && x == y
  {
    var s, t := PercentByte(a) + x, PercentByte(b) + y;
    assert s[1] == HEX[a / 16] && s[2] == HEX[a % 16] && t[1] == HEX[b / 16] && t[2] == HEX[b % 16];
    HexDecides(a / 16, b / 16);
    HexDecides(a % 16, b % 16);
    assert s[3..] == x && t[3..] == y;
  }

  lemma {:induction false} PercentDecides(a: seq<Byte>, b: seq<Byte>, x: string, y: string)
    requires |a| == |b| && Percent(a) + x == Percent(b) + y
    ensures a == b && x == y
  {
    if a == [] {
      assert Percent(a) + x == x && Percent(b) + y == y;
    } else {
      assert Percent(a) + x == PercentByte(a[0]) + (Percent(a[1..]) + x);
      assert Percent(b) + y == PercentByte(b[0]) + (Percent(b[1..]) + y);
      PercentByteDecides(a[0], b[0], Percent(a[1..]) + x, Percent(b[1..]) + y);
      PercentDecides(a[1..], b[1..], x, y);
      assert a == [a[0]] + a[1..] && b == [b[0]] + b[1..];
    }
  }

  /** The first byte tells how many there are. */
  lemma FirstByteDecidesLength(c: char, d: char)
    requires Utf8(c)[0] == Utf8(d)[0]
    ensures |Utf8(c)| == |Utf8(d)|
  {
    assert (c as int) < 0x110000 && (d as int) < 0x110000;
  }

  lemma Utf8Decides(c: char, d: char)
    requires Utf8(c) == Utf8(d)
    ensures c == d
  {
    var n, m := c as int, d as int;
    assert |Utf8(c)| == |Utf8(d)|;
    assert n / 64 == m / 64 ==> n % 64 == m % 64 ==> n == m;
    if n >= 0x10000 {
      SixBits(n, m);
      SixBits(n / 64, m / 64);
      SixBits(n / 4096, m / 4096);
      assert n / 64 / 64 == n / 4096 && m / 64 / 64 == m / 4096 && n / 4096 / 64 == n / 262144 && m / 4096 / 64 == m / 262144;
    } else if n >= 0x800 {
      SixBits(n, m);
      SixBits(n / 64, m / 64);
      assert n / 64 / 64 == n / 4096 && m / 64 / 64 == m / 4096;
    } else if n >= 0x80 {
      SixBits(n, m);
    }
  }

  lemma SixBits(n: int, m: int)
    ensures n / 64 == m / 64 && n % 64 == m % 64 ==> n == m
  {
  }

  lemma ReservedDecides(c: char, d: char, x: string, y: string)
    requires Percent(Utf8(c)) + x == Percent(Utf8(d)) + y
    ensures c == d && x == y
  {
    hide PercentByte, Utf8;
    var a, b := Utf8(c), Utf8(d);
    assert Percent(a) + x == PercentByte(a[0]) + (Percent(a[1..]) + x);
    assert Percent(b) + y == PercentByte(b[0]) + (Percent(b[1..]) + y);
    PercentByteDecides(a[0], b[0], Percent(a[1..]) + x, Percent(b[1..]) + y);
    FirstByteDecidesLength(c, d);
    PercentDecides(a, b, x, y);
    Utf8Decides(c, d);
  }

  lemma EncodeCharDecides(c: char, d: char, x: string, y: string)
    requires EncodeChar(c) + x == EncodeChar(d) + y
    ensures c == d && x == y
  {
    FirstIsPercentIff(c);
    FirstIsPercentIff(d);
    hide Unreserved, Percent, Utf8;
    var s, t := EncodeChar(c) + x, EncodeChar(d) + y;
    assert s[0] == EncodeChar(c)[0] && t[0] == EncodeChar(d)[0];
    if Unreserved(c) {
      assert s[1..] == x && t[1..] == y;
    } else {
      ReservedDecides(c, d, x, y);
    }
  }

  lemma FirstIsPercentIff(c: char)
    ensures EncodeChar(c) != "" && (Unreserved(c) <==> EncodeChar(c)[0] != '%')
  {
  }

  lemma EncodeCharIsText(c: char)
    ensures EncodeChar(c) != "" && '/' !in EncodeChar(c) && ('%' in EncodeChar(c) <==> !Unreserved(c))
  {
    if !Unreserved(c) { PercentIsText(Utf8(c)); }
  }

  lemma {:induction false} PercentIsText(bs: seq<Byte>)
    ensures '/' !in Percent(bs) && (bs != [] ==> '%' in Percent(bs))
  {
    if bs != [] {
      PercentIsText(bs[1..]);
      assert '/' !in HEX;
      assert Percent(bs)[0] == '%';
    }
  }

  lemma {:induction false} EncodeSegmentDecides(s: string, t: string)
    requires EncodeSegment(s) == EncodeSegment(t)
    ensures s == t
  {
    hide EncodeChar;
    if s != "" { EncodeCharIsText(s[0]); }
    if t != "" { EncodeCharIsText(t[0]); }
    if s != "" && t != "" {
      EncodeCharDecides(s[0], t[0], EncodeSegment(s[1..]), EncodeSegment(t[1..]));
      EncodeSegmentDecides(s[1..], t[1..]);
      assert s == [s[0]] + s[1..] && t == [t[0]] + t[1..];
    }
  }

  predicate AllUnreserved(s: string) { forall i :: 0 <= i < |s| ==> Unreserved(s[i]) }

  /** An encoded segment holds no slash, and a percent sign unless it encodes itself. */
  lemma {:induction false} EncodeSegmentIsText(s: string)
    ensures '/' !in EncodeSegment(s)
    ensures '%' !in EncodeSegment(s) <==> AllUnreserved(s)
    ensures AllUnreserved(s) ==> EncodeSegment(s) == s
  {
    hide EncodeChar, Unreserved;
    if s != "" {
      EncodeCharIsText(s[0]);
      EncodeSegmentIsText(s[1..]);
      assert s == [s[0]] + s[1..];
      assert AllUnreserved(s) <==> Unreserved(s[0]) && AllUnreserved(s[1..]);
      assert Unreserved(s[0]) ==> EncodeChar(s[0]) == [s[0]] by { SelfEncoded(s[0]); }
    }
  }

  lemma SelfEncoded(c: char)
    ensures Unreserved(c) ==> EncodeChar(c) == [c]
  {
  }

  /** Different keys have different paths. */
  lemma {:induction false} EncodePathDecides(a: Key, b: Key)
    requires EncodePath(a) == EncodePath(b)
    ensures a == b
  {
    hide EncodeSegment;
    if a != [] && b != [] {
      EncodeSegmentIsText(a[0]);
      EncodeSegmentIsText(b[0]);
      FirstSepDecides('/', EncodeSegment(a[0]), EncodePath(a[1..]), EncodeSegment(b[0]), EncodePath(b[1..]));
      EncodeSegmentDecides(a[0], b[0]);
      EncodePathDecides(a[1..], b[1..]);
      assert a == [a[0]] + a[1..] && b == [b[0]] + b[1..];
    }
  }

  lemma {:induction false} EncodePathAppends(a: Key, b: Key)
    ensures EncodePath(a + b) == EncodePath(a) + EncodePath(b)
  {
    if a == [] {
      assert a + b == b;
    } else {
      assert (a + b)[1..] == a[1..] + b;
      EncodePathAppends(a[1..], b);
    }
  }

  // ---------------------------------------------------------------- LIKE

  function Fold(c: char): char { if 'A' <= c <= 'Z' then c + 32 as char else c }

  predicate CasesOfOne(upper: char, lower: char) { 'A' <= upper <= 'Z' && lower as int - 'a' as int == upper as int - 'A' as int }

  /** Two characters fold alike exactly when they are equal or the two cases of one ASCII letter. */
  lemma FoldIff(c: char, d: char)
    ensures Fold(c) == Fold(d) <==> c == d || CasesOfOne(c, d) || CasesOfOne(d, c)
  {
    FoldCode(c);
    FoldCode(d);
    hide Fold;
    assert Fold(c) == Fold(d) <==> Fold(c) as int == Fold(d) as int;
  }

  lemma FoldCode(c: char)
    ensures Fold(c) as int == if 'A' <= c <= 'Z' then c as int + 32 else c as int
  {
  }

  /** Equal but for the case of ASCII letters. */
  predicate SameFold(a: string, b: string) { |a| == |b| && forall i :: 0 <= i < |a| ==> Fold(a[i]) == Fold(b[i]) }

  predicate Like(pattern: string, text: string)
    decreases |pattern| + |text|
  {
    if pattern == "" then text == ""
    else if pattern[0] == '%' then Like(pattern[1..], text) || (text != "" && Like(pattern, text[1..]))
    else text != "" && (pattern[0] == '_' || Fold(pattern[0]) == Fold(text[0])) && Like(pattern[1..], text[1..])
  }

  /** A listing selects the keys whose path matches the prefix's path and anything after it. */
  predicate Listed(prefix: Key, key: Key) { Like(EncodePath(prefix) + "%", EncodePath(key)) }

  lemma {:induction false} AnythingMatches(text: string)
    ensures Like("%", text)
  {
    if text != "" { AnythingMatches(text[1..]); }
  }

  lemma {:induction false} MatchesItself(p: string, rest: string)
    ensures Like(p + "%", p + rest)
  {
    if p == "" {
      assert p + "%" == "%" && p + rest == rest;
      AnythingMatches(rest);
    } else {
      assert (p + "%")[1..] == p[1..] + "%" && (p + rest)[1..] == p[1..] + rest;
      MatchesItself(p[1..], rest);
      if p[0] == '%' { assert Like(p + "%", (p + rest)[1..]); }
    }
  }

  /** Keys under a prefix are listed. */
  lemma UnderIsListed(prefix: Key, key: Key)
    requires prefix <= key
    ensures Listed(prefix, key)
  {
    assert key == prefix + key[|prefix|..];
    EncodePathAppends(prefix, key[|prefix|..]);
    MatchesItself(EncodePath(prefix), EncodePath(key[|prefix|..]));
  }

  /** `text` begins with `p` but for letter case. */
  predicate Begins(p: string, text: string) { |p| <= |text| && SameFold(p, text[..|p|]) }

  /** A pattern without wildcards matches what begins with it but for letter case. */
  lemma {:induction false} PlainMatchesIff(p: string, text: string)
    requires '%' !in p && '_' !in p
    ensures Like(p + "%", text) <==> Begins(p, text)
  {
    if p == "" {
      assert p + "%" == "%";
      AnythingMatches(text);
    } else {
      assert (p + "%")[1..] == p[1..] + "%" && (p + "%")[0] == p[0];
      if text != "" {
        PlainMatchesIff(p[1..], text[1..]);
        assert |p| <= |text| ==> text[..|p|] == [text[0]] + text[1..][..|p| - 1];
        assert p == [p[0]] + p[1..];
        if |p| <= |text| { FoldFirst(p, text[..|p|]); }
      }
    }
  }

  lemma FoldFirst(a: string, b: string)
    requires |a| == |b| > 0
    ensures SameFold(a, b) <==> Fold(a[0]) == Fold(b[0]) && SameFold(a[1..], b[1..])
  {
    if Fold(a[0]) == Fold(b[0]) && SameFold(a[1..], b[1..]) {
      forall i | 0 <= i < |a| ensures Fold(a[i]) == Fold(b[i]) {
        if i > 0 { assert a[i] == a[1..][i - 1] && b[i] == b[1..][i - 1]; }
      }
    }
  }

  // ---------------------------------------------------------------- plain names

  /** A name that encodes to itself and holds no wildcard. */
  predicate PlainName(s: string) { AllUnreserved(s) && '_' !in s }

  lemma PlainNameIff(s: string)
    ensures PlainName(s) <==> forall i :: 0 <= i < |s| ==> s[i] in UPPER || s[i] in LOWER || s[i] in DIGITS || s[i] in "-.!~*'()"
  {
    hide Unreserved;
    forall i | 0 <= i < |s| ensures Unreserved(s[i]) <==> s[i] in UPPER || s[i] in LOWER || s[i] in DIGITS || s[i] in "-_.!~*'()" {
      UnreservedIff(s[i]);
    }
    UnderscoreIsNoLetter();
  }

  lemma UnderscoreIsNoLetter()
    ensures '_' !in UPPER && '_' !in LOWER && '_' !in DIGITS && '_' !in "-.!~*'()"
  {
  }

  lemma FoldKeepsUnreserved(a: string, b: string)
    requires SameFold(a, b) && AllUnreserved(a)
    ensures AllUnreserved(b)
  {
    forall i | 0 <= i < |b| ensures Unreserved(b[i]) {
      assert Fold(a[i]) == Fold(b[i]) && Unreserved(a[i]);
    }
  }

  /** A path begins with a plain name and a slash, but for case, exactly when its first segment is that name but for case. */
  lemma FirstSegmentIff(name: string, segment: string, rest: string)
    requires PlainName(name)
    ensures var text := EncodeSegment(segment) + ['/'] + rest;
      (Begins(name + ['/'], text) <==> SameFold(name, segment))
      && (SameFold(name, segment) ==> |text| > |name| && text[|name| + 1..] == rest)
  {
    assert '/' !in name;
    hide EncodeSegment, Unreserved;
    EncodeSegmentIsText(segment);
    var e, p := EncodeSegment(segment), name + ['/'];
    var text := e + ['/'] + rest;
    if SameFold(name, segment) {
      FoldKeepsUnreserved(name, segment);
      assert text[..|p|] == segment + ['/'];
    }
    if Begins(p, text) {
      FoldedPrefix(name, e, rest);
      assert '%' !in e by { NoPercent(name, e); }
    }
  }

  lemma FoldedPrefix(name: string, e: string, rest: string)
    requires '/' !in name && '/' !in e
    requires Begins(name + ['/'], e + ['/'] + rest)
    ensures SameFold(name, e)
  {
    var text, p := e + ['/'] + rest, name + ['/'];
    assert forall i :: 0 <= i < |p| ==> Fold(p[i]) == Fold(text[i]) by {
      assert forall i :: 0 <= i < |p| ==> text[..|p|][i] == text[i];
    }
    assert p[|name|] == '/' && text[|e|] == '/' && forall i :: 0 <= i < |e| ==> text[i] == e[i];
    assert forall i :: 0 <= i < |name| ==> p[i] == name[i] && name[i] != '/';
    assert |e| == |name|;
  }

  lemma NoPercent(name: string, e: string)
    requires SameFold(name, e) && AllUnreserved(name)
    ensures '%' !in e
  {
    FoldKeepsUnreserved(name, e);
  }

  lemma FoldParts(a: string, b: string, c: string, d: string)
    requires |a| == |c|
    ensures SameFold(a + b, c + d) <==> SameFold(a, c) && SameFold(b, d)
  {
    var x, y := a + b, c + d;
    assert |x| == |y| <==> |b| == |d|;
    if SameFold(x, y) {
      assert forall i :: 0 <= i < |a| ==> x[i] == a[i] && y[i] == c[i];
      assert forall i :: 0 <= i < |b| ==> x[|a| + i] == b[i] && y[|a| + i] == d[i];
    }
  }

  lemma PlainPath(org: string, project: string)
    requires PlainName(org) && PlainName(project)
    ensures EncodePath([org, project]) == org + ['/'] + (project + ['/'])
    ensures '%' !in EncodePath([org, project]) && '_' !in EncodePath([org, project])
  {
    EncodeSegmentIsText(org);
    EncodeSegmentIsText(project);
    assert [org, project][1..] == [project] && [project][1..] == [];
    assert EncodePath([project]) == project + ['/'] + "";
    assert '%' !in org && '%' !in project;
  }

  lemma BeginsParts(a: string, b: string, text: string)
    requires |a| <= |text|
    ensures Begins(a + b, text) <==> Begins(a, text) && Begins(b, text[|a|..])
  {
    if |a + b| <= |text| {
      assert text[..|a + b|] == text[..|a|] + text[|a|..][..|b|];
      FoldParts(a, b, text[..|a|], text[|a|..][..|b|]);
    }
  }

  /** For a scope of plain names a key is listed exactly when its first two segments are those
      names but for letter case. */
  lemma PlainListedIff(org: string, project: string, k: Key)
    requires PlainName(org) && PlainName(project)
    ensures Listed([org, project], k) <==> |k| >= 2 && SameFold(org, k[0]) && SameFold(project, k[1])
  {
    PlainPath(org, project);
    hide EncodeSegment, Like, Unreserved, AllUnreserved, Begins, SameFold;
    PlainMatchesIff(EncodePath([org, project]), EncodePath(k));
    if k == [] {
      TooShort(org + ['/'] + (project + ['/']));
    } else {
      FirstSegmentIff(org, k[0], EncodePath(k[1..]));
      SplitPlain(org + ['/'], project + ['/'], EncodePath(k));
      if SameFold(org, k[0]) {
        if |k| >= 2 { FirstSegmentIff(project, k[1], EncodePath(k[1..][1..])); } else { TooShort(project + ['/']); }
      }
    }
  }

  lemma TooShort(p: string)
    requires p != ""
    ensures !Begins(p, "")
  {
  }

  lemma SplitPlain(a: string, b: string, text: string)
    ensures Begins(a + b, text) ==> Begins(a, text)
    ensures |a| <= |text| ==> (Begins(a + b, text) <==> Begins(a, text) && Begins(b, text[|a|..]))
  {
    if |a| <= |text| { BeginsParts(a, b, text); }
  }

  // ---------------------------------------------------------------- wildcards in names

  /** Character by character equal but for case, or an underscore in the pattern. */
  predicate Covers(p: string, text: string) {
    |p| == |text| && forall i :: 0 <= i < |p| ==> p[i] == '_' || Fold(p[i]) == Fold(text[i])
  }

  lemma {:induction false} CoveredMatches(p: string, text: string, rest: string)
    requires Covers(p, text) && '%' !in p
    ensures Like(p + "%", text + rest)
  {
    if p == "" {
      assert p + "%" == "%" && text + rest == rest;
      AnythingMatches(rest);
    } else {
      assert (p + "%")[1..] == p[1..] + "%" && (text + rest)[1..] == text[1..] + rest;
      assert (p + "%")[0] == p[0] && (text + rest)[0] == text[0];
      CoveredMatches(p[1..], text[1..], rest);
    }
  }

  /** A name with an underscore also selects keys of every project whose name differs from it
      only at underscores and in letter case. */
  lemma UnderscoreSelects(org: string, project: string, other: string, rest: Key)
    requires AllUnreserved(org) && AllUnreserved(project) && AllUnreserved(other) && Covers(project, other)
    ensures Listed([org, project], [org, other] + rest)
  {
    EncodeSegmentIsText(org);
    EncodeSegmentIsText(project);
    EncodeSegmentIsText(other);
    assert '%' !in org && '%' !in project;
    TwoSegments(org, project);
    TwoSegments(org, other);
    EncodePathAppends([org, other], rest);
    hide EncodeSegment, Like, Unreserved, EncodePath;
    CoveredMatches(org + ['/'] + project + ['/'], org + ['/'] + other + ['/'], EncodePath(rest));
  }

  lemma TwoSegments(a: string, b: string)
    ensures EncodePath([a, b]) == EncodeSegment(a) + ['/'] + EncodeSegment(b) + ['/']
  {
    assert [a, b][1..] == [b] && [b][1..] == [];
    assert EncodePath([b]) == EncodeSegment(b) + ['/'] + "";
  }
}

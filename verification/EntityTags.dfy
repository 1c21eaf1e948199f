/**
  Entity tags (apps/api/control-server.ts, isEtagMatch): If-None-Match, section 13.1.2 of
  RFC 9110, with the weak comparison of section 8.8.3.2.
*/
module EntityTags {
  import opened Options
  import opened StoreKeys

  /** The pieces of `s` between separators. */
  function SplitAt(sep: char, s: string): (parts: seq<string>)
    ensures parts != []
    decreases |s|
  {
    var i := IndexOf(s, sep);
    if i.None? then [s] else [s[..i.value]] + SplitAt(sep, s[i.value + 1..])
  }

  /** Without a weakness mark and one quote at either end. */
  function Bare(s: string): string {
    var a := if "W/" <= s then s[2..] else s;
    var b := if "\"" <= a then a[1..] else a;
    if b != "" && b[|b| - 1] == '"' then b[..|b| - 1] else b
  }

  predicate PartMatches(part: string, current: string) {
    Trim(part) == "*" || Bare(Trim(part)) == Bare(Trim(current))
  }

  predicate EtagMatches(header: string, current: string) {
    exists i :: 0 <= i < |SplitAt(',', header)| && PartMatches(SplitAt(',', header)[i], current)
  }

  method IsEtagMatch(ifNoneMatchHeader: string, currentEtag: string) returns (r: bool)
    ensures r == EtagMatches(ifNoneMatchHeader, currentEtag)
  {
    var cleanCurrent := Bare(Trim(currentEtag));
    var parts := SplitAt(',', ifNoneMatchHeader);
    for i := 0 to |parts|
      invariant forall j :: 0 <= j < i ==> !PartMatches(parts[j], currentEtag)
    {
      var part := Trim(parts[i]);
      if part == "*" { return true; }
      if Bare(part) == cleanCurrent { return true; }
    }
    return false;
  }

  /** An entity tag of RFC 9110, weak or not. */
  datatype Tag = Tag(weak: bool, value: string)

  /** Its opaque part holds no quote, as RFC 9110 has it, nor a comma, which the header is split at. */
  predicate Plain(t: Tag) { '"' !in t.value && ',' !in t.value }

  function Text(t: Tag): string { (if t.weak then "W/" else "") + "\"" + t.value + "\"" }

  /** A tag in a list, with optional blanks around it. */
  datatype Item = Item(before: string, tag: Tag, after: string)

  predicate Blank(s: string) { forall i :: 0 <= i < |s| ==> s[i] == ' ' || s[i] == '\t' }

  predicate PlainItem(i: Item) { Blank(i.before) && Blank(i.after) && Plain(i.tag) }

  function ItemText(i: Item): string { i.before + Text(i.tag) + i.after }

  function ListText(items: seq<Item>): string
    requires items != []
  {
    if |items| == 1 then ItemText(items[0]) else ItemText(items[0]) + [','] + ListText(items[1..])
  }

  lemma {:induction false} BlanksTrim(before: string, s: string)
    requires Blank(before) && s != "" && !IsSpace(s[0])
    ensures TrimStart(before + s) == s
  {
    if before == "" {
      assert before + s == s;
    } else {
      assert (before + s)[0] == before[0] && (before + s)[1..] == before[1..] + s;
      BlanksTrim(before[1..], s);
    }
  }

  lemma {:induction false} ItemTrims(before: string, s: string, after: string)
    requires Blank(before) && Blank(after) && s != "" && !IsSpace(s[0]) && !IsSpace(s[|s| - 1])
    ensures Trim(before + s + after) == s
    decreases |after|
  {
    var t := before + s + after;
    if after == "" {
      assert t == before + s && t[|t| - 1] == s[|s| - 1];
      BlanksTrim(before, s);
    } else {
      assert t[|t| - 1] == after[|after| - 1] && t[..|t| - 1] == before + s + after[..|after| - 1];
      ItemTrims(before, s, after[..|after| - 1]);
    }
  }

  lemma BareText(t: Tag)
    ensures Bare(Text(t)) == t.value
  {
    var s := Text(t);
    var a := "\"" + t.value + "\"";
    assert t.weak ==> s[2..] == a;
    assert !t.weak ==> s == a && s[0] == '"';
    assert a[1..] == t.value + "\"";
  }

  /** One list item matches exactly by its opaque part, weak or not. */
  lemma ItemMatchesIff(i: Item, current: Tag)
    requires PlainItem(i)
    ensures PartMatches(ItemText(i), Text(current)) <==> i.tag.value == current.value
  {
    ItemTrims(i.before, Text(i.tag), i.after);
    ItemTrims("", Text(current), "");
    assert "" + Text(current) + "" == Text(current);
    BareText(i.tag);
    BareText(current);
    assert Text(i.tag)[|Text(i.tag)| - 1] == '"';
  }

  lemma ItemHasNoComma(i: Item)
    requires PlainItem(i)
    ensures ',' !in ItemText(i)
  {
  }

  lemma SplitFirst(a: string, rest: string)
    requires ',' !in a
    ensures SplitAt(',', a + [','] + rest) == [a] + SplitAt(',', rest)
  {
    var s := a + [','] + rest;
    SepAfter(',', a, rest);
    var i := IndexOf(s, ',').value;
    assert s == s[..i] + [','] + s[i + 1..];
    FirstSepDecides(',', a, rest, s[..i], s[i + 1..]);
  }

  lemma {:induction false} ListSplits(items: seq<Item>)
    requires items != [] && forall k :: 0 <= k < |items| ==> PlainItem(items[k])
    ensures |SplitAt(',', ListText(items))| == |items|
    ensures forall k :: 0 <= k < |items| ==> SplitAt(',', ListText(items))[k] == ItemText(items[k])
  {
    ItemHasNoComma(items[0]);
    if |items| > 1 {
      SplitFirst(ItemText(items[0]), ListText(items[1..]));
      ListSplits(items[1..]);
    }
  }

  /** Weak comparison: a list matches exactly when one of its opaque parts is the current one. */
  lemma ListMatchesIff(items: seq<Item>, current: Tag)
    requires items != [] && forall k :: 0 <= k < |items| ==> PlainItem(items[k])
    ensures EtagMatches(ListText(items), Text(current)) <==> exists k :: 0 <= k < |items| && items[k].tag.value == current.value
  {
    ListSplits(items);
    forall k | 0 <= k < |items| ensures PartMatches(ItemText(items[k]), Text(current)) <==> items[k].tag.value == current.value {
      ItemMatchesIff(items[k], current);
    }
  }

  // ---------------------------------------------------------------- tags with a comma

  lemma {:induction false} SplitPartsAreFree(sep: char, s: string)
    ensures forall k :: 0 <= k < |SplitAt(sep, s)| ==> sep !in SplitAt(sep, s)[k]
    decreases |s|
  {
    var i := IndexOf(s, sep);
    if i.Some? { SplitPartsAreFree(sep, s[i.value + 1..]); }
  }

  lemma {:induction false} TrimStartIsFree(c: char, s: string)
    requires c !in s
    ensures c !in TrimStart(s)
  {
    if s != "" && IsSpace(s[0]) { TrimStartIsFree(c, s[1..]); }
  }

  lemma {:induction false} TrimIsFree(c: char, s: string)
    requires c !in s
    ensures c !in Trim(s)
    decreases |s|
  {
    if s != "" && IsSpace(s[|s| - 1]) { TrimIsFree(c, s[..|s| - 1]); } else { TrimStartIsFree(c, s); }
  }

  predicate HasStar(parts: seq<string>) { exists i :: 0 <= i < |parts| && Trim(parts[i]) == "*" }

  /** A current tag with a comma in its opaque part, which section 8.8.3 of RFC 9110 allows, is
      matched by no list but through a star: the header is split at every comma. */
  lemma CommaTagMatchesOnlyStar(header: string, current: Tag)
    requires ',' in current.value
    ensures EtagMatches(header, Text(current)) <==> HasStar(SplitAt(',', header))
  {
    TextTrims(current);
    BareText(current);
    SplitPartsAreFree(',', header);
    hide Trim, SplitAt, Bare, Text;
    var parts := SplitAt(',', header);
    forall i | 0 <= i < |parts| ensures PartMatches(parts[i], Text(current)) <==> Trim(parts[i]) == "*" {
      TrimIsFree(',', parts[i]);
      BareIsFree(',', Trim(parts[i]));
    }
    hide PartMatches;
  }

  lemma BareIsFree(c: char, s: string)
    requires c !in s
    ensures c !in Bare(s)
  {
  }

  lemma TextTrims(t: Tag)
    ensures Trim(Text(t)) == Text(t)
  {
    ItemTrims("", Text(t), "");
    assert "" + Text(t) + "" == Text(t);
  }

  /** And the first part of such a tag in a list can match another tag. */
  lemma CommaTagMatchesItsFirstPart()
    ensures EtagMatches(Text(Tag(false, "a,b")), Text(Tag(false, "a")))
  {
    HalfMatches();
    hide PartMatches;
    FirstPartMatches("\"a", "b\"", Text(Tag(false, "a")));
    assert Text(Tag(false, "a,b")) == "\"a" + [','] + "b\"";
  }

  lemma FirstPartMatches(a: string, rest: string, current: string)
    requires ',' !in a && PartMatches(a, current)
    ensures EtagMatches(a + [','] + rest, current)
  {
    hide PartMatches;
    SplitFirst(a, rest);
    assert SplitAt(',', a + [','] + rest)[0] == a;
  }

  lemma HalfMatches()
    ensures PartMatches("\"a", Text(Tag(false, "a")))
  {
    TextTrims(Tag(false, "a"));
    BareText(Tag(false, "a"));
    ItemTrims("", "\"a", "");
    assert "" + "\"a" + "" == "\"a";
    assert Bare("\"a") == "a";
    hide Trim, Text;
  }

  lemma {:induction false} SplitConcat(a: string, b: string)
    ensures SplitAt(',', a + [','] + b) == SplitAt(',', a) + SplitAt(',', b)
    decreases |a|
  {
    var i := IndexOf(a, ',');
    if i.None? {
      SplitFirst(a, b);
    } else {
      var x, y := a[..i.value], a[i.value + 1..];
      assert a == x + [','] + y;
      assert a + [','] + b == x + [','] + (y + [','] + b);
      SplitFirst(x, y + [','] + b);
      SplitConcat(y, b);
    }
  }

  /** Some piece of the item, cut at its commas, matches. */
  predicate PieceMatches(item: string, current: string) {
    exists i :: 0 <= i < |SplitAt(',', item)| && PartMatches(SplitAt(',', item)[i], current)
  }

  /** A list matches exactly when a piece of one of its items does, whatever they hold. */
  lemma {:induction false} ListMatchesByPiecesIff(items: seq<Item>, current: string)
    requires items != []
    ensures EtagMatches(ListText(items), current) <==> exists k :: 0 <= k < |items| && PieceMatches(ItemText(items[k]), current)
  {
    hide PartMatches, ItemText;
    if |items| > 1 {
      var a, b := ItemText(items[0]), ListText(items[1..]);
      SplitConcat(a, b);
      ListMatchesByPiecesIff(items[1..], current);
      assert forall k :: 1 <= k < |items| ==> items[k] == items[1..][k - 1];
      assert EtagMatches(ListText(items), current) <==> PieceMatches(a, current) || EtagMatches(b, current) by {
        EitherPart(SplitAt(',', a), SplitAt(',', b), current);
      }
    }
  }

  lemma EitherPart(a: seq<string>, b: seq<string>, current: string)
    ensures (exists i :: 0 <= i < |a + b| && PartMatches((a + b)[i], current))
      <==> (exists i :: 0 <= i < |a| && PartMatches(a[i], current)) || (exists i :: 0 <= i < |b| && PartMatches(b[i], current))
  {
    hide PartMatches;
    assert forall i :: 0 <= i < |a| ==> (a + b)[i] == a[i];
    assert forall i :: 0 <= i < |b| ==> (a + b)[|a| + i] == b[i];
  }

  /** An item without a comma has one piece. */
  lemma WholeItem(i: Item, current: Tag)
    requires PlainItem(i)
    ensures PieceMatches(ItemText(i), Text(current)) <==> i.tag.value == current.value
  {
    ItemHasNoComma(i);
    ItemMatchesIff(i, current);
    hide PartMatches, ItemText;
    assert SplitAt(',', ItemText(i)) == [ItemText(i)] && SplitAt(',', ItemText(i))[0] == ItemText(i);
  }

  predicate HasEqualTag(items: seq<Item>, current: Tag) { exists k :: 0 <= k < |items| && items[k].tag.value == current.value }

  /** A piece of a listed tag that holds a comma matches. */
  predicate HasMatchingPiece(items: seq<Item>, current: Tag) {
    exists k :: 0 <= k < |items| && ',' in items[k].tag.value && PieceMatches(ItemText(items[k]), Text(current))
  }

  predicate BlankAround(items: seq<Item>) {
    forall k :: 0 <= k < |items| ==> Blank(items[k].before) && Blank(items[k].after) && '"' !in items[k].tag.value
  }

  lemma EqualTagMatches(items: seq<Item>, current: Tag)
    requires items != [] && ',' !in current.value && BlankAround(items) && HasEqualTag(items, current)
    ensures EtagMatches(ListText(items), Text(current))
  {
    ListMatchesByPiecesIff(items, Text(current));
    hide PieceMatches, ItemText, EtagMatches, ListText;
    var k :| 0 <= k < |items| && items[k].tag.value == current.value;
    assert PlainItem(items[k]);
    WholeItem(items[k], current);
  }

  lemma MatchingPieceMatches(items: seq<Item>, current: Tag)
    requires items != [] && HasMatchingPiece(items, current)
    ensures EtagMatches(ListText(items), Text(current))
  {
    ListMatchesByPiecesIff(items, Text(current));
    hide PieceMatches, ItemText, EtagMatches, ListText;
  }

  lemma MatchHasCause(items: seq<Item>, current: Tag)
    requires items != [] && ',' !in current.value && BlankAround(items) && EtagMatches(ListText(items), Text(current))
    ensures HasEqualTag(items, current) || HasMatchingPiece(items, current)
  {
    ListMatchesByPiecesIff(items, Text(current));
    hide PieceMatches, ItemText, EtagMatches, ListText;
    var k :| 0 <= k < |items| && PieceMatches(ItemText(items[k]), Text(current));
    if ',' !in items[k].tag.value {
      assert PlainItem(items[k]);
      WholeItem(items[k], current);
    }
  }

  /** For a current tag without a comma the header matches when some listed tag is equal, as in
      the weak comparison of RFC 9110, or a piece of a listed tag with a comma matches; so it
      agrees with that comparison exactly when the latter does not happen alone. */
  lemma WeakComparisonIff(items: seq<Item>, current: Tag)
    requires items != [] && ',' !in current.value && BlankAround(items)
    ensures EtagMatches(ListText(items), Text(current)) <==> HasEqualTag(items, current) || HasMatchingPiece(items, current)
    ensures (EtagMatches(ListText(items), Text(current)) <==> HasEqualTag(items, current))
      <==> HasEqualTag(items, current) || !HasMatchingPiece(items, current)
  {
    hide HasEqualTag, HasMatchingPiece, EtagMatches, ListText, Text, BlankAround;
    if HasEqualTag(items, current) { EqualTagMatches(items, current); }
    if HasMatchingPiece(items, current) { MatchingPieceMatches(items, current); }
    if EtagMatches(ListText(items), Text(current)) { MatchHasCause(items, current); }
  }

  // ---------------------------------------------------------------- versions as tags

  function Decimal(n: nat): (s: string)
    ensures s != "" && forall i :: 0 <= i < |s| ==> '0' <= s[i] <= '9'
  {
    if n < 10 then [n as char + '0'] else Decimal(n / 10) + [(n % 10) as char + '0']
  }

  lemma {:induction false} DecimalDecides(m: nat, n: nat)
    requires Decimal(m) == Decimal(n)
    ensures m == n
  {
    var s, t := Decimal(m), Decimal(n);
    assert s[|s| - 1] == (m % 10) as char + '0' && t[|t| - 1] == (n % 10) as char + '0';
    assert m >= 10 ==> s[..|s| - 1] == Decimal(m / 10);
    assert n >= 10 ==> t[..|t| - 1] == Decimal(n / 10);
    if m >= 10 && n >= 10 { DecimalDecides(m / 10, n / 10); }
  }

  function VersionTag(version: nat): string { Text(Tag(false, Decimal(version))) }

  /** A poll's condition holds exactly for the version it has. */
  lemma VersionsMatchIff(have: nat, current: nat)
    ensures EtagMatches(VersionTag(have), VersionTag(current)) <==> have == current
  {
    var item := Item("", Tag(false, Decimal(have)), "");
    assert "" + Text(item.tag) + "" == Text(item.tag);
    assert ListText([item]) == VersionTag(have);
    ListMatchesIff([item], Tag(false, Decimal(current)));
    assert [item][0] == item;
    if Decimal(have) == Decimal(current) { DecimalDecides(have, current); }
  }
}

/**
  Route choice in the CLI: pattern matching (cli/simulate.ts), specificity scores
  (cli/check.ts, runtime/router/route-matcher.ts) and the stable sort that picks
  the winner.  A segment pattern is a list of literal segments, alone or followed by a
  final slash and star.
*/
module Routing {
  import opened Options

  // ---------------------------------------------------------------- strings

  predicate EndsWith(s: string, suffix: string) {
    |suffix| <= |s| && s[|s| - |suffix|..] == suffix
  }

  function MatchesRoutePattern(pattern: string, path: string): bool {
    if pattern == path then true
    else if EndsWith(pattern, "/*") then
      var prefix := pattern[..|pattern| - 2];
      path == prefix || prefix + "/" <= path
    else if EndsWith(pattern, "*") then pattern[..|pattern| - 1] <= path
    else false
  }

  /** The non-empty pieces of `s` between slashes; `piece` is the one being read. */
  function Segments(s: string, piece: string): seq<string>
    decreases |s|
  {
    var done := if piece == "" then [] else [piece];
    if s == "" then done
    else if s[0] == '/' then done + Segments(s[1..], "")
    else Segments(s[1..], piece + [s[0]])
  }

  predicate IsWildcard(segment: string) {
    '*' in segment || ':' in segment || '(' in segment || '{' in segment
  }

  function Score(segments: seq<string>): nat {
    if segments == [] then 0
    else Score(segments[..|segments| - 1]) + (if IsWildcard(segments[|segments| - 1]) then 1 else 2)
  }

  method CalculateRouteScore(pattern: string) returns (score: nat)
    ensures score == Score(Segments(pattern, ""))
  {
    var segments := Segments(pattern, "");
    score := 0;
    for i := 0 to |segments|
      invariant score == Score(segments[..i])
    {
      assert segments[..i + 1][..i] == segments[..i];
      if IsWildcard(segments[i]) {
        score := score + 1;
      } else {
        score := score + 2;
      }
    }
    assert segments[..|segments|] == segments;
  }

  lemma ContinuesIff(before: string, path: string)
    ensures before <= path <==> exists rest: string :: path == before + rest
  {
    if before <= path { assert path == before + path[|before|..]; }
  }

  lemma StarWithoutSlash(before: string)
    requires before == "" || before[|before| - 1] != '/'
    ensures var pattern := before + "*";
      EndsWith(pattern, "*") && !EndsWith(pattern, "/*") && pattern[..|pattern| - 1] == before
  {
    var pattern := before + "*";
    if before != "" { assert pattern[|pattern| - 2..][0] == before[|before| - 1]; }
  }

  /** A final star that no slash precedes stands for any continuation. */
  lemma StarContinues(before: string, path: string)
    requires before == "" || before[|before| - 1] != '/'
    ensures MatchesRoutePattern(before + "*", path) <==> exists rest: string :: path == before + rest
  {
    StarWithoutSlash(before);
    ContinuesIff(before, path);
    hide EndsWith;
    assert before <= before + "*";
  }

  /** The segments that hold none of the marks of a wildcard, parameter, group or brace. */
  function Plain(segments: seq<string>): seq<string> {
    if segments == [] then []
    else
      var last := segments[|segments| - 1];
      Plain(segments[..|segments| - 1]) + if exists i :: 0 <= i < |last| && last[i] in "*:({" then [] else [last]
  }

  /** A pattern scores one for every segment and one more for every plain one. */
  lemma {:induction false} ScoreCounts(segments: seq<string>)
    ensures Score(segments) == |segments| + |Plain(segments)|
  {
    if segments != [] { ScoreCounts(segments[..|segments| - 1]); }
  }

  // ---------------------------------------------------------------- choosing the winner

  datatype Route = Route(pattern: string, target: string)

  datatype Candidate = Candidate(route: Route, score: nat, index: nat)

  function MatchesUpTo(routes: seq<Route>, path: string, n: nat): seq<Candidate>
    requires n <= |routes|
  {
    if n == 0 then []
    else
      MatchesUpTo(routes, path, n - 1)
      + (if MatchesRoutePattern(routes[n - 1].pattern, path)
         then [Candidate(routes[n - 1], Score(Segments(routes[n - 1].pattern, "")), n - 1)] else [])
  }

  /** A stable sort by descending score: equal scores keep their order. */
  function SortedByScore(cs: seq<Candidate>): seq<Candidate> {
    if cs == [] then [] else Placed(cs[0], SortedByScore(cs[1..]))
  }

  function Placed(c: Candidate, cs: seq<Candidate>): seq<Candidate> {
    if cs == [] || c.score >= cs[0].score then [c] + cs else [cs[0]] + Placed(c, cs[1..])
  }

  /** The first of the highest-scoring candidates. */
  predicate IsFirstBest(cs: seq<Candidate>, i: nat) {
    i < |cs| && (forall j :: 0 <= j < |cs| ==> cs[j].score <= cs[i].score)
    && (forall j :: 0 <= j < i ==> cs[j].score < cs[i].score)
  }

  lemma {:induction false} SortPutsFirstBestAhead(cs: seq<Candidate>) returns (i: nat)
    requires cs != []
    ensures IsFirstBest(cs, i) && SortedByScore(cs) != [] && SortedByScore(cs)[0] == cs[i]
    ensures multiset(SortedByScore(cs)) == multiset(cs)
  {
    assert cs == [cs[0]] + cs[1..];
    PlacedKeepsAll(cs[0], SortedByScore(cs[1..]));
    if cs[1..] == [] {
      i := 0;
    } else {
      var j := SortPutsFirstBestAhead(cs[1..]);
      i := if cs[0].score >= cs[1..][j].score then 0 else j + 1;
      forall x | 0 <= x < |cs| ensures cs[x].score <= cs[i].score {
        if x > 0 { assert cs[x] == cs[1..][x - 1]; }
      }
      forall x | 0 <= x < i ensures cs[x].score < cs[i].score {
        if x > 0 { assert cs[x] == cs[1..][x - 1]; }
      }
    }
  }

  lemma {:induction false} PlacedKeepsAll(c: Candidate, cs: seq<Candidate>)
    ensures multiset(Placed(c, cs)) == multiset(cs) + multiset{c}
  {
    if cs != [] {
      assert cs == [cs[0]] + cs[1..];
      PlacedKeepsAll(c, cs[1..]);
    }
  }

  predicate IsMatch(c: Candidate, routes: seq<Route>, path: string, n: nat)
    requires n <= |routes|
  {
    c.index < n && c.route == routes[c.index] && MatchesRoutePattern(c.route.pattern, path)
    && c.score == Score(Segments(c.route.pattern, ""))
  }

  predicate HasIndex(cs: seq<Candidate>, r: nat) { exists x :: 0 <= x < |cs| && cs[x].index == r }

  predicate IndicesAscend(cs: seq<Candidate>) { forall x, y :: 0 <= x < y < |cs| ==> cs[x].index < cs[y].index }

  /** The candidates are the matching ones of the first `n` routes, in order. */
  predicate AreMatches(cs: seq<Candidate>, routes: seq<Route>, path: string, n: nat)
    requires n <= |routes|
  {
    (forall x :: 0 <= x < |cs| ==> IsMatch(cs[x], routes, path, n)) && IndicesAscend(cs)
    && forall r :: 0 <= r < n && MatchesRoutePattern(routes[r].pattern, path) ==> HasIndex(cs, r)
  }

  lemma OneMoreMatch(cs: seq<Candidate>, c: Candidate, routes: seq<Route>, path: string, n: nat)
    requires 0 < n <= |routes| && AreMatches(cs, routes, path, n - 1) && IsMatch(c, routes, path, n) && c.index == n - 1
    ensures AreMatches(cs + [c], routes, path, n)
  {
    hide Segments, Score, MatchesRoutePattern;
    assert forall x :: 0 <= x < |cs| ==> (cs + [c])[x] == cs[x] && IsMatch(cs[x], routes, path, n - 1);
    forall r | 0 <= r < n && MatchesRoutePattern(routes[r].pattern, path) ensures HasIndex(cs + [c], r) {
      if r == n - 1 {
        assert (cs + [c])[|cs|].index == r;
      } else {
        assert HasIndex(cs, r);
      }
    }
  }

  lemma {:induction false} MatchesAreTheMatchingRoutes(routes: seq<Route>, path: string, n: nat)
    requires n <= |routes|
    ensures AreMatches(MatchesUpTo(routes, path, n), routes, path, n)
  {
    hide Segments, Score, MatchesRoutePattern, HasIndex, IndicesAscend;
    if n == 0 {
      assert IndicesAscend([]) by { NoneAscend(); }
    } else {
      MatchesAreTheMatchingRoutes(routes, path, n - 1);
      if MatchesRoutePattern(routes[n - 1].pattern, path) {
        OneMoreMatch(MatchesUpTo(routes, path, n - 1), Candidate(routes[n - 1], Score(Segments(routes[n - 1].pattern, "")), n - 1), routes, path, n);
      } else {
        NoMatchMore(MatchesUpTo(routes, path, n - 1), routes, path, n);
        assert MatchesUpTo(routes, path, n) == MatchesUpTo(routes, path, n - 1);
      }
    }
  }

  lemma NoMatchMore(cs: seq<Candidate>, routes: seq<Route>, path: string, n: nat)
    requires 0 < n <= |routes| && AreMatches(cs, routes, path, n - 1) && !MatchesRoutePattern(routes[n - 1].pattern, path)
    ensures AreMatches(cs, routes, path, n)
  {
    hide Segments, Score, MatchesRoutePattern, HasIndex, IndicesAscend;
  }

  lemma NoneAscend()
    ensures IndicesAscend([])
  {
  }

  /** The matching route of highest score, the first declared among equals. */
  ghost predicate IsWinner(routes: seq<Route>, path: string, w: nat) {
    w < |routes| && MatchesRoutePattern(routes[w].pattern, path) &&
    forall r :: 0 <= r < |routes| && r != w && MatchesRoutePattern(routes[r].pattern, path) ==>
      var sr, sw := Score(Segments(routes[r].pattern, "")), Score(Segments(routes[w].pattern, ""));
      sr < sw || (sr == sw && w < r)
  }

  method SelectWinner(routes: seq<Route>, path: string) returns (winner: Option<nat>)
    ensures winner.Some? ==> IsWinner(routes, path, winner.value)
    ensures winner.None? <==> forall r :: 0 <= r < |routes| ==> !MatchesRoutePattern(routes[r].pattern, path)
  {
    var matching: seq<Candidate> := [];
    for i := 0 to |routes|
      invariant matching == MatchesUpTo(routes, path, i)
    {
      if MatchesRoutePattern(routes[i].pattern, path) {
        var score := CalculateRouteScore(routes[i].pattern);
        matching := matching + [Candidate(routes[i], score, i)];
      }
    }
    if matching == [] {
      MatchesAreTheMatchingRoutes(routes, path, |routes|);
      return None;
    }
    ghost var best := SortPutsFirstBestAhead(matching);
    var sorted := SortedByScore(matching);
    winner := Some(sorted[0].index);
    FirstBestWins(routes, path, best);
  }

  lemma FirstBestWins(routes: seq<Route>, path: string, best: nat)
    requires IsFirstBest(MatchesUpTo(routes, path, |routes|), best)
    ensures IsWinner(routes, path, MatchesUpTo(routes, path, |routes|)[best].index)
  {
    hide Segments, Score, MatchesRoutePattern, MatchesUpTo;
    var matching := MatchesUpTo(routes, path, |routes|);
    MatchesAreTheMatchingRoutes(routes, path, |routes|);
    var w := matching[best].index;
    forall r | 0 <= r < |routes| && r != w && MatchesRoutePattern(routes[r].pattern, path)
      ensures var sr, sw := Score(Segments(routes[r].pattern, "")), Score(Segments(routes[w].pattern, ""));
        sr < sw || (sr == sw && w < r)
    {
      var x :| 0 <= x < |matching| && matching[x].index == r;
      assert x < best || best < x;
    }
  }

  // ---------------------------------------------------------------- segment patterns

  /** A segment that can stand in a path. */
  predicate PathSegment(s: string) { s != "" && '/' !in s }

  /** A segment that can stand literally in a pattern. */
  predicate LiteralSegment(s: string) { PathSegment(s) && !IsWildcard(s) }

  predicate AllPath(segs: seq<string>) { forall i :: 0 <= i < |segs| ==> PathSegment(segs[i]) }

  predicate AllLiteral(segs: seq<string>) { forall i :: 0 <= i < |segs| ==> LiteralSegment(segs[i]) }

  function Render(segs: seq<string>): string {
    if segs == [] then "" else "/" + segs[0] + Render(segs[1..])
  }

  function Path(segs: seq<string>): string { if segs == [] then "/" else Render(segs) }

  datatype Pattern = Literal(segs: seq<string>) | Prefix(segs: seq<string>) {
    function Text(): string {
      match this
      case Literal(segs) => Path(segs)
      case Prefix(segs) => Render(segs) + "/*"
    }

    predicate Matches(path: seq<string>) {
      match this
      case Literal(segs) => segs == path
      case Prefix(segs) => segs <= path
    }

    function Weight(): nat {
      match this
      case Literal(segs) => 2 * |segs|
      case Prefix(segs) => 2 * |segs| + 1
    }
  }

  /** Two slash-free pieces that start the same text and end at a slash or its end are equal. */
  lemma PieceIsUnique(a: string, x: string, b: string, y: string)
    requires '/' !in a && '/' !in b
    requires a + x <= b + y
    requires (x == "" && |a| + |x| == |b| + |y|) || (x != "" && x[0] == '/')
    requires y == "" || y[0] == '/'
    ensures a == b && x <= y
  {
    var s, t := a + x, b + y;
    assert forall i :: 0 <= i < |s| ==> s[i] == t[i];
    assert x != "" ==> s[|a|] == '/';
    assert y != "" ==> t[|b|] == '/';
    assert forall i :: 0 <= i < |a| ==> s[i] == a[i] && s[i] != '/';
    assert forall i :: 0 <= i < |b| ==> t[i] == b[i] && t[i] != '/';
    assert a == s[..|a|] && b == t[..|b|];
    assert s[|a|..] == x && t[|b|..] == y;
  }

  lemma RenderHead(segs: seq<string>)
    ensures segs == [] ==> Render(segs) == ""
    ensures segs != [] ==> Render(segs) != "" && Render(segs)[0] == '/' && Render(segs)[1..] == segs[0] + Render(segs[1..])
  {}

  /** The rendered prefix followed by a slash starts a rendered path exactly when it has fewer segments and agrees on them. */
  lemma {:induction false} RenderedPrefix(p: seq<string>, q: seq<string>)
    requires AllPath(p) && AllPath(q)
    ensures Render(p) + "/" <= Render(q) <==> p < q
  {
    RenderHead(p);
    RenderHead(q);
    if p == [] {
      assert Render(p) + "/" == "/";
    } else if q == [] {
      assert |Render(p) + "/"| > 0;
    } else {
      RenderedPrefix(p[1..], q[1..]);
      RenderHead(p[1..]);
      RenderHead(q[1..]);
      var x := Render(p[1..]) + "/";
      assert (Render(p) + "/")[1..] == p[0] + x;
      if Render(p) + "/" <= Render(q) {
        assert p[0] + x <= q[0] + Render(q[1..]);
        PieceIsUnique(p[0], x, q[0], Render(q[1..]));
        assert p == [p[0]] + p[1..] && q == [q[0]] + q[1..];
      }
      if p < q {
        assert p[0] == q[0] && p[1..] < q[1..];
        assert Render(p) + "/" == "/" + p[0] + x;
      }
    }
  }

  lemma {:induction false} RenderInjective(p: seq<string>, q: seq<string>)
    requires AllPath(p) && AllPath(q) && Render(p) == Render(q)
    ensures p == q
  {
    RenderHead(p);
    RenderHead(q);
    if p != [] && q != [] {
      RenderHead(p[1..]);
      RenderHead(q[1..]);
      PieceIsUnique(p[0], Render(p[1..]), q[0], Render(q[1..]));
      RenderInjective(p[1..], q[1..]);
      assert p == [p[0]] + p[1..] && q == [q[0]] + q[1..];
    }
  }

  lemma {:induction false} LastCharacter(segs: seq<string>)
    requires segs != [] && AllLiteral(segs)
    ensures Render(segs) != "" && Render(segs)[|Render(segs)| - 1] != '*'
  {
    if segs[1..] != [] { LastCharacter(segs[1..]); }
  }

  /** The string test agrees with matching segment by segment. */
  lemma MatchingIsBySegments(p: Pattern, path: seq<string>)
    requires AllLiteral(p.segs) && AllPath(path)
    ensures MatchesRoutePattern(p.Text(), Path(path)) <==> p.Matches(path)
  {
    assert AllPath(p.segs);
    match p
    case Literal(segs) => LiteralBySegments(segs, path);
    case Prefix(segs) => PrefixBySegments(segs, path);
  }

  lemma LiteralBySegments(segs: seq<string>, path: seq<string>)
    requires AllLiteral(segs) && AllPath(segs) && AllPath(path)
    ensures MatchesRoutePattern(Literal(segs).Text(), Path(path)) <==> segs == path
  {
    if segs != [] { LastCharacter(segs); }
    RenderHead(segs);
    RenderHead(path);
    if Path(segs) == Path(path) { PathInjective(segs, path); }
  }

  lemma PrefixBySegments(segs: seq<string>, path: seq<string>)
    requires AllPath(segs) && AllPath(path)
    ensures MatchesRoutePattern(Prefix(segs).Text(), Path(path)) <==> segs <= path
  {
    var text := Prefix(segs).Text();
    assert text[|text| - 2..] == "/*" && text[..|text| - 2] == Render(segs);
    assert EndsWith(text, "/*");
    RenderedPrefix(segs, path);
    if text == Path(path) {
      StarSegment(segs, path);
    } else if path == [] {
      RenderHead(segs);
      SlashIsNoLongRender(segs);
    } else {
      hide Render;
      assert Path(path) == Render(path);
      assert MatchesRoutePattern(text, Path(path)) == (Path(path) == Render(segs) || Render(segs) + "/" <= Path(path));
      assert segs <= path <==> segs == path || segs < path;
      if Render(segs) == Path(path) { RenderInjective(segs, path); }
    }
  }

  lemma SlashIsNoLongRender(segs: seq<string>)
    requires AllPath(segs)
    ensures Render(segs) != "/" && (segs != [] ==> |Render(segs)| >= 2)
  {
    RenderHead(segs);
    if segs != [] { assert |segs[0]| >= 1; }
  }

  lemma PathInjective(p: seq<string>, q: seq<string>)
    requires AllPath(p) && AllPath(q) && Path(p) == Path(q)
    ensures p == q
  {
    SlashIsNoLongRender(p);
    SlashIsNoLongRender(q);
    if p != [] && q != [] { RenderInjective(p, q); }
  }

  /** A path spelled like a wildcard pattern has "*" for its last segment. */
  lemma StarSegment(segs: seq<string>, path: seq<string>)
    requires AllPath(segs) && AllPath(path) && Render(segs) + "/*" == Path(path)
    ensures path == segs + ["*"]
  {
    var starred := segs + ["*"];
    assert AllPath(starred);
    RenderConcat(segs, ["*"]);
    assert Render(["*"]) == "/*";
    PathInjective(starred, path);
  }

  lemma {:induction false} RenderConcat(a: seq<string>, b: seq<string>)
    ensures Render(a + b) == Render(a) + Render(b)
  {
    if a == [] {
      assert a + b == b;
    } else {
      assert (a + b)[1..] == a[1..] + b;
      RenderConcat(a[1..], b);
    }
  }

  lemma {:induction false} ReadPiece(seg: string, rest: string, piece: string)
    requires '/' !in seg && (rest == "" || rest[0] == '/')
    ensures Segments(seg + rest, piece) == Segments(rest, piece + seg)
  {
    if seg == "" {
      assert seg + rest == rest && piece + seg == piece;
    } else {
      assert (seg + rest)[1..] == seg[1..] + rest;
      ReadPiece(seg[1..], rest, piece + [seg[0]]);
      assert piece + [seg[0]] + seg[1..] == piece + seg;
    }
  }

  /** Splitting what was rendered gives the segments back. */
  lemma {:induction false} SegmentsOfRender(segs: seq<string>)
    requires AllPath(segs)
    ensures Segments(Render(segs), "") == segs
    ensures segs == [] ==> Segments("/", "") == segs
  {
    if segs == [] {
      assert "/"[1..] == "";
      assert Segments("/", "") == [] + Segments("/"[1..], "");
    } else {
      var rest := Render(segs[1..]);
      RenderHead(segs[1..]);
      RenderHead(segs);
      ReadPiece(segs[0], rest, "");
      assert "" + segs[0] == segs[0];
      SegmentsOfRender(segs[1..]);
      assert Segments(Render(segs), "") == [] + Segments(Render(segs)[1..], "");
      if rest == "" {
        assert segs == [segs[0]];
      } else {
        assert Segments(rest, segs[0]) == [segs[0]] + Segments(rest[1..], "");
        assert Segments(rest, "") == [] + Segments(rest[1..], "");
      }
    }
  }

  lemma {:induction false} LiteralScore(segs: seq<string>)
    requires AllLiteral(segs)
    ensures Score(segs) == 2 * |segs|
  {
    if segs != [] { LiteralScore(segs[..|segs| - 1]); }
  }

  lemma ScoreIsWeight(p: Pattern)
    requires AllLiteral(p.segs)
    ensures Score(Segments(p.Text(), "")) == p.Weight()
  {
    LiteralScore(p.segs);
    assert AllPath(p.segs);
    match p
    case Literal(segs) => SegmentsOfRender(segs);
    case Prefix(segs) =>
      var starred := segs + ["*"];
      RenderConcat(segs, ["*"]);
      assert Render(["*"]) == "/*";
      SegmentsOfRender(starred);
      assert starred[..|starred| - 1] == segs;
  }

  /** A longer literal prefix wins, and a wildcard wins over the literal it extends. */
  predicate Outranks(p: Pattern, q: Pattern) {
    |p.segs| > |q.segs| || (|p.segs| == |q.segs| && p.Prefix? && q.Literal?)
  }

  /** Among the patterns matching a path, the score ranks by length of the matched
      prefix; an exact literal beats every wildcard whose prefix is strictly shorter
      than the path, and loses to the one whose prefix is the whole path. */
  lemma ScoreRanksByPrefix(p: Pattern, q: Pattern, path: seq<string>)
    requires AllLiteral(p.segs) && AllLiteral(q.segs) && p.Matches(path) && q.Matches(path)
    ensures Score(Segments(p.Text(), "")) > Score(Segments(q.Text(), "")) <==> Outranks(p, q)
    ensures p.Literal? && q.Prefix? ==>
      (Score(Segments(p.Text(), "")) > Score(Segments(q.Text(), "")) <==> q.segs != path)
  {
    ScoreIsWeight(p);
    ScoreIsWeight(q);
  }

  /** The winner has the longest prefix of all matching patterns, the first declared among equals. */
  lemma WinnerIsLongestPrefix(routes: seq<Route>, patterns: seq<Pattern>, path: seq<string>, w: nat)
    requires |routes| == |patterns| && AllPath(path) && IsWinner(routes, Path(path), w)
    requires forall i :: 0 <= i < |routes| ==> AllLiteral(patterns[i].segs) && routes[i].pattern == patterns[i].Text()
    ensures patterns[w].Matches(path)
    ensures forall r :: 0 <= r < |routes| && r != w && patterns[r].Matches(path) ==>
      Outranks(patterns[w], patterns[r]) || (!Outranks(patterns[r], patterns[w]) && w < r)
  {
    MatchingIsBySegments(patterns[w], path);
    forall r | 0 <= r < |routes| && r != w && patterns[r].Matches(path)
      ensures Outranks(patterns[w], patterns[r]) || (!Outranks(patterns[r], patterns[w]) && w < r)
    {
      MatchingIsBySegments(patterns[r], path);
      ScoreRanksByPrefix(patterns[w], patterns[r], path);
      ScoreRanksByPrefix(patterns[r], patterns[w], path);
    }
  }

  const API: Pattern := Literal(["api"])
  const UNDER_API: Pattern := Prefix(["api"])

  lemma ApiTexts()
    ensures API.Text() == "/api" && UNDER_API.Text() == "/api/*" && Path(["api"]) == "/api"
    ensures AllLiteral(["api"]) && AllPath(["api"])
  {
    assert ["api"][1..] == [] && Render(["api"]) == "/api";
  }

  /** A wildcard declared beside the literal it extends wins the literal's own path. */
  lemma WildcardBeatsItsLiteral(w: nat)
    requires IsWinner([Route("/api", "exact"), Route("/api/*", "rest")], "/api", w)
    ensures w == 1
  {
    ApiTexts();
    hide IsWinner, AllLiteral, AllPath, Path, Pattern.Text;
    var patterns := [API, UNDER_API];
    WinnerIsLongestPrefix([Route("/api", "exact"), Route("/api/*", "rest")], patterns, ["api"], w);
    assert patterns[1].Matches(["api"]);
  }
}

/**
  Command suggestion in the CLI (cli/main.ts): the two-row edit distance loop and
  the choice of the closest known command.
*/
module EditDistance {
  import opened Options

  function Min3(a: nat, b: nat, c: nat): (m: nat)
    ensures m <= a && m <= b && m <= c && (m == a || m == b || m == c)
  {
    if a <= b && a <= c then a else if b <= c then b else c
  }

  function Cost(a: char, b: char): nat { if a == b then 0 else 1 }

  /** The recursive edit distance of the first `i` characters of `a` and the first `j` of `b`. */
  function Prefixes(a: string, b: string, i: nat, j: nat): nat
    requires i <= |a| && j <= |b|
    decreases i + j
  {
    if i == 0 then j
    else if j == 0 then i
    else Min3(Prefixes(a, b, i - 1, j) + 1,
              Prefixes(a, b, i, j - 1) + 1,
              Prefixes(a, b, i - 1, j - 1) + Cost(a[i - 1], b[j - 1]))
  }

  function Distance(a: string, b: string): nat { Prefixes(a, b, |a|, |b|) }

  // ---------------------------------------------------------------- the metric

  /** Dropping or adding one last character changes the distance by at most one. */
  lemma {:induction false} OneEditApart(a: string, b: string, i: nat, j: nat)
    requires i <= |a| && j <= |b|
    ensures i > 0 ==> Prefixes(a, b, i, j) <= Prefixes(a, b, i - 1, j) + 1
    ensures i > 0 ==> Prefixes(a, b, i - 1, j) <= Prefixes(a, b, i, j) + 1
    ensures j > 0 ==> Prefixes(a, b, i, j) <= Prefixes(a, b, i, j - 1) + 1
    ensures j > 0 ==> Prefixes(a, b, i, j - 1) <= Prefixes(a, b, i, j) + 1
    decreases i + j
  {
    if i > 0 && j > 0 {
      OneEditApart(a, b, i - 1, j);
      OneEditApart(a, b, i, j - 1);
      OneEditApart(a, b, i - 1, j - 1);
    }
  }

  lemma PrefixesStep(a: string, b: string, i: nat, j: nat)
    requires 0 < i <= |a| && 0 < j <= |b|
    ensures Prefixes(a, b, i, j) ==
      Min3(Prefixes(a, b, i - 1, j) + 1, Prefixes(a, b, i, j - 1) + 1, Prefixes(a, b, i - 1, j - 1) + Cost(a[i - 1], b[j - 1]))
  {
  }

  lemma PrefixesEdges(a: string, b: string)
    ensures forall i :: 0 <= i <= |a| ==> Prefixes(a, b, i, 0) == i
    ensures forall j :: 0 <= j <= |b| ==> Prefixes(a, b, 0, j) == j
  {
  }

  lemma {:induction false} PrefixesSymmetric(a: string, b: string, i: nat, j: nat)
    requires i <= |a| && j <= |b|
    ensures Prefixes(a, b, i, j) == Prefixes(b, a, j, i)
    decreases i + j
  {
    hide Prefixes;
    PrefixesEdges(a, b);
    PrefixesEdges(b, a);
    if i > 0 && j > 0 {
      PrefixesStep(a, b, i, j);
      PrefixesStep(b, a, j, i);
      PrefixesSymmetric(a, b, i - 1, j);
      PrefixesSymmetric(a, b, i, j - 1);
      PrefixesSymmetric(a, b, i - 1, j - 1);
    }
  }

  lemma {:induction false} PrefixesZero(a: string, b: string, i: nat, j: nat)
    requires i <= |a| && j <= |b|
    ensures Prefixes(a, b, i, j) == 0 <==> a[..i] == b[..j]
    decreases i + j
  {
    if i > 0 && j > 0 {
      PrefixesZero(a, b, i - 1, j - 1);
      assert a[..i] == a[..i - 1] + [a[i - 1]];
      assert b[..j] == b[..j - 1] + [b[j - 1]];
      if a[..i] == b[..j] {
        assert a[..i - 1] == a[..i][..i - 1] == b[..j][..j - 1] == b[..j - 1];
      }
    }
  }

  datatype Edit = Nothing | Delete | Insert | Replace

  /** One of the recurrence's alternatives, as an equation between distances. */
  ghost predicate EndsWith(e: Edit, a: string, b: string, i: nat, j: nat)
    requires i <= |a| && j <= |b|
  {
    match e
    case Nothing => i == 0 && j == 0
    case Delete => i > 0 && Prefixes(a, b, i, j) == Prefixes(a, b, i - 1, j) + 1
    case Insert => j > 0 && Prefixes(a, b, i, j) == Prefixes(a, b, i, j - 1) + 1
    case Replace => i > 0 && j > 0 && Prefixes(a, b, i, j) == Prefixes(a, b, i - 1, j - 1) + Cost(a[i - 1], b[j - 1])
  }

  lemma LastEdit(a: string, b: string, i: nat, j: nat) returns (e: Edit)
    requires i <= |a| && j <= |b|
    ensures EndsWith(e, a, b, i, j)
  {
    if i == 0 && j == 0 { return Nothing; }
    if i > 0 && Prefixes(a, b, i, j) == Prefixes(a, b, i - 1, j) + 1 { return Delete; }
    if j > 0 && Prefixes(a, b, i, j) == Prefixes(a, b, i, j - 1) + 1 { return Insert; }
    return Replace;
  }

  lemma ReplaceBound(a: string, b: string, i: nat, j: nat)
    requires 0 < i <= |a| && 0 < j <= |b|
    ensures Prefixes(a, b, i, j) <= Prefixes(a, b, i - 1, j - 1) + Cost(a[i - 1], b[j - 1])
  {}

  lemma EmptyPrefixes(a: string, b: string)
    ensures Prefixes(a, b, 0, 0) == 0
  {}

  lemma {:induction false} PrefixesTriangle(a: string, b: string, c: string, i: nat, j: nat, k: nat)
    requires i <= |a| && j <= |b| && k <= |c|
    ensures Prefixes(a, c, i, k) <= Prefixes(a, b, i, j) + Prefixes(b, c, j, k)
    decreases i + j + k
  {
    hide Prefixes;
    var e := LastEdit(a, b, i, j);
    var f := LastEdit(b, c, j, k);
    OneEditApart(a, c, i, k);
    match (e, f)
    case (Delete, _) => PrefixesTriangle(a, b, c, i - 1, j, k);
    case (_, Insert) => PrefixesTriangle(a, b, c, i, j, k - 1);
    case (Insert, Delete) => PrefixesTriangle(a, b, c, i, j - 1, k);
    case (Insert, Replace) => PrefixesTriangle(a, b, c, i, j - 1, k - 1);
    case (Replace, Delete) => PrefixesTriangle(a, b, c, i - 1, j - 1, k);
    case (Replace, Replace) =>
      ReplaceBound(a, c, i, k);
      PrefixesTriangle(a, b, c, i - 1, j - 1, k - 1);
    case (Nothing, _) => EmptyPrefixes(a, c);
    case (_, Nothing) => EmptyPrefixes(a, c);
  }

  /** The distance is a metric on strings. */
  lemma DistanceIsMetric(a: string, b: string, c: string)
    ensures Distance(a, b) == 0 <==> a == b
    ensures Distance(a, b) == Distance(b, a)
    ensures Distance(a, c) <= Distance(a, b) + Distance(b, c)
  {
    PrefixesZero(a, b, |a|, |b|);
    assert a[..|a|] == a && b[..|b|] == b;
    PrefixesSymmetric(a, b, |a|, |b|);
    PrefixesTriangle(a, b, c, |a|, |b|, |c|);
  }

  // ---------------------------------------------------------------- the least number of edits

  /** One character deleted, inserted or replaced. */
  ghost predicate OneEdit(a: string, b: string) {
    exists before: string, after: string, x: char, y: char :: IsEdit(a, b, before, after, x, y)
  }

  predicate IsEdit(a: string, b: string, before: string, after: string, x: char, y: char) {
    (a == before + [x] + after && b == before + after)
    || (a == before + after && b == before + [y] + after)
    || (a == before + [x] + after && b == before + [y] + after)
  }

  /** `n` edits lead from `a` to `b`. */
  ghost predicate Reaches(a: string, b: string, n: nat)
    decreases n
  {
    if n == 0 then a == b else exists c: string :: OneEdit(a, c) && Reaches(c, b, n - 1)
  }

  /** Equal characters behind two prefixes cost nothing. */
  lemma {:induction false} CommonTail(a: string, b: string, i: nat, j: nat, k: nat)
    requires i + k <= |a| && j + k <= |b| && a[i..i + k] == b[j..j + k]
    ensures Prefixes(a, b, i + k, j + k) <= Prefixes(a, b, i, j)
  {
    if k > 0 {
      assert a[i..i + k][..k - 1] == a[i..i + k - 1] && b[j..j + k][..k - 1] == b[j..j + k - 1];
      CommonTail(a, b, i, j, k - 1);
      assert a[i..i + k][k - 1] == b[j..j + k][k - 1];
      ReplaceBound(a, b, i + k, j + k);
    }
  }

  lemma OneEditIsNear(a: string, b: string)
    requires OneEdit(a, b)
    ensures Distance(a, b) <= 1
  {
    hide Prefixes;
    var before: string, after: string, x: char, y: char :| IsEdit(a, b, before, after, x, y);
    var n := |before|;
    assert a[..n] == before == b[..n];
    PrefixesZero(a, b, n, n);
    if a == before + [x] + after && b == before + after {
      OneEditApart(a, b, n + 1, n);
      TailCosts(a, b, n + 1, n, after);
    } else if a == before + after && b == before + [y] + after {
      OneEditApart(a, b, n, n + 1);
      TailCosts(a, b, n, n + 1, after);
    } else {
      ReplaceBound(a, b, n + 1, n + 1);
      TailCosts(a, b, n + 1, n + 1, after);
    }
  }

  lemma TailCosts(a: string, b: string, i: nat, j: nat, tail: string)
    requires i <= |a| && j <= |b| && a[i..] == tail == b[j..]
    ensures Distance(a, b) <= Prefixes(a, b, i, j)
  {
    assert a[i..i + |tail|] == a[i..] && b[j..j + |tail|] == b[j..];
    CommonTail(a, b, i, j, |tail|);
  }

  lemma {:induction false} ReachesIsFar(a: string, b: string, n: nat)
    requires Reaches(a, b, n)
    ensures Distance(a, b) <= n
    decreases n
  {
    hide Prefixes, OneEdit;
    if n == 0 {
      DistanceIsMetric(a, b, b);
    } else {
      var c: string :| OneEdit(a, c) && Reaches(c, b, n - 1);
      OneEditIsNear(a, c);
      ReachesIsFar(c, b, n - 1);
      DistanceIsMetric(a, c, b);
    }
  }

  lemma EditAppended(a: string, b: string, z: char)
    requires OneEdit(a, b)
    ensures OneEdit(a + [z], b + [z])
  {
    var before: string, after: string, x: char, y: char :| IsEdit(a, b, before, after, x, y);
    var tail := after + [z];
    assert before + [x] + after + [z] == before + [x] + tail && before + [y] + after + [z] == before + [y] + tail;
    assert before + after + [z] == before + tail;
    assert IsEdit(a + [z], b + [z], before, tail, x, y);
  }

  lemma {:induction false} ReachesAppended(a: string, b: string, n: nat, z: char)
    requires Reaches(a, b, n)
    ensures Reaches(a + [z], b + [z], n)
    decreases n
  {
    hide OneEdit;
    if n > 0 {
      var c: string :| OneEdit(a, c) && Reaches(c, b, n - 1);
      EditAppended(a, c, z);
      ReachesAppended(c, b, n - 1, z);
    }
  }

  lemma {:induction false} ReachesThen(a: string, b: string, n: nat, c: string)
    requires Reaches(a, b, n) && OneEdit(b, c)
    ensures Reaches(a, c, n + 1)
    decreases n
  {
    hide OneEdit;
    if n == 0 {
      assert Reaches(c, c, 0);
    } else {
      var m: string :| OneEdit(a, m) && Reaches(m, b, n - 1);
      ReachesThen(m, b, n - 1, c);
    }
  }

  lemma LastCharacterEdits(s: string, x: char, y: char)
    ensures OneEdit(s + [x], s) && OneEdit(s, s + [y]) && OneEdit(s + [x], s + [y])
  {
    assert s + [x] + "" == s + [x] && s + [y] + "" == s + [y] && s + "" == s;
    assert IsEdit(s + [x], s, s, "", x, y) && IsEdit(s, s + [y], s, "", x, y) && IsEdit(s + [x], s + [y], s, "", x, y);
  }

  lemma {:induction false} PrefixesReach(a: string, b: string, i: nat, j: nat)
    requires i <= |a| && j <= |b|
    ensures Reaches(a[..i], b[..j], Prefixes(a, b, i, j))
    decreases i + j
  {
    var e := LastEdit(a, b, i, j);
    LastEditFits(e, a, b, i, j);
    hide Prefixes, Reaches, EndsWith;
    match e
    case Nothing => NothingReaches(a, b);
    case Delete =>
      PrefixesReach(a, b, i - 1, j);
      ReachesByDeleting(a, b, i, j);
    case Insert =>
      PrefixesReach(a, b, i, j - 1);
      ReachesByInserting(a, b, i, j);
    case Replace =>
      PrefixesReach(a, b, i - 1, j - 1);
      ReachesByReplacing(a, b, i, j);
  }

  lemma LastEditFits(e: Edit, a: string, b: string, i: nat, j: nat)
    requires i <= |a| && j <= |b| && EndsWith(e, a, b, i, j)
    ensures match e case Nothing => i == 0 == j case Delete => i > 0 case Insert => j > 0 case Replace => i > 0 && j > 0
  {
  }

  lemma NothingReaches(a: string, b: string)
    ensures Reaches(a[..0], b[..0], Prefixes(a, b, 0, 0))
  {
    assert a[..0] == b[..0];
  }

  /** What a last character of each string costs on top. */
  lemma LastCharacterReaches(u: string, v: string, n: nat, x: char, y: char)
    requires Reaches(u, v, n)
    ensures Reaches(u + [x], v + [y], n + Cost(x, y))
  {
    LastCharacterEdits(v, x, y);
    hide OneEdit, Reaches;
    ReachesAppended(u, v, n, x);
    if x != y { ReachesThen(u + [x], v + [x], n, v + [y]); }
  }

  lemma ReachesByDeleting(a: string, b: string, i: nat, j: nat)
    requires 0 < i <= |a| && j <= |b| && EndsWith(Delete, a, b, i, j) && Reaches(a[..i - 1], b[..j], Prefixes(a, b, i - 1, j))
    ensures Reaches(a[..i], b[..j], Prefixes(a, b, i, j))
  {
    LastCharacterEdits(a[..i - 1], a[i - 1], a[i - 1]);
    hide OneEdit, Prefixes;
    assert a[..i] == a[..i - 1] + [a[i - 1]];
  }

  lemma ReachesByInserting(a: string, b: string, i: nat, j: nat)
    requires i <= |a| && 0 < j <= |b| && EndsWith(Insert, a, b, i, j) && Reaches(a[..i], b[..j - 1], Prefixes(a, b, i, j - 1))
    ensures Reaches(a[..i], b[..j], Prefixes(a, b, i, j))
  {
    LastCharacterEdits(b[..j - 1], b[j - 1], b[j - 1]);
    hide OneEdit, Prefixes, Reaches;
    assert b[..j] == b[..j - 1] + [b[j - 1]];
    ReachesThen(a[..i], b[..j - 1], Prefixes(a, b, i, j - 1), b[..j]);
  }

  lemma ReachesByReplacing(a: string, b: string, i: nat, j: nat)
    requires 0 < i <= |a| && 0 < j <= |b| && EndsWith(Replace, a, b, i, j) && Reaches(a[..i - 1], b[..j - 1], Prefixes(a, b, i - 1, j - 1))
    ensures Reaches(a[..i], b[..j], Prefixes(a, b, i, j))
  {
    assert Prefixes(a, b, i, j) == Prefixes(a, b, i - 1, j - 1) + Cost(a[i - 1], b[j - 1]);
    hide Prefixes, Reaches, Cost, EndsWith;
    assert a[..i] == a[..i - 1] + [a[i - 1]] && b[..j] == b[..j - 1] + [b[j - 1]];
    LastCharacterReaches(a[..i - 1], b[..j - 1], Prefixes(a, b, i - 1, j - 1), a[i - 1], b[j - 1]);
  }

  /** The distance is the least number of single-character edits between the strings. */
  lemma DistanceIsLeast(a: string, b: string)
    ensures Reaches(a, b, Distance(a, b))
    ensures forall n: nat :: Reaches(a, b, n) ==> Distance(a, b) <= n
  {
    PrefixesReach(a, b, |a|, |b|);
    assert a[..|a|] == a && b[..|b|] == b;
    forall n: nat | Reaches(a, b, n) ensures Distance(a, b) <= n {
      ReachesIsFar(a, b, n);
    }
  }

  // ---------------------------------------------------------------- the loop

  /** The first `n` cells of a row hold the distances to the first `i` characters of `a`. */
  ghost predicate IsRow(a: string, b: string, i: nat, row: seq<nat>, n: nat)
    requires i <= |a| && n <= |row| && n <= |b| + 1
  {
    forall x :: 0 <= x < n ==> row[x] == Prefixes(a, b, i, x)
  }

  lemma NextCell(a: string, b: string, i: nat, j: nat, prev: seq<nat>, curr: seq<nat>)
    requires 0 < i <= |a| && 0 < j <= |b| && |prev| == |curr| == |b| + 1
    requires IsRow(a, b, i - 1, prev, |b| + 1) && IsRow(a, b, i, curr, j)
    ensures Min3(prev[j] + 1, curr[j - 1] + 1, prev[j - 1] + Cost(a[i - 1], b[j - 1])) == Prefixes(a, b, i, j)
  {}

  /** The two rows are overwritten in place; the result is the recursive distance. */
  method Levenshtein(a: string, b: string) returns (distance: nat)
    ensures distance == Distance(a, b)
  {
    DistanceIsMetric(a, b, b);
    if a == b { return 0; }
    if |a| == 0 { return |b|; }
    if |b| == 0 { return |a|; }

    PrefixesEdges(a, b);
    hide Prefixes;
    var m, n := |a|, |b|;
    var prevRow := new nat[n + 1];
    var currRow := new nat[n + 1];

    for j := 0 to n + 1
      invariant IsRow(a, b, 0, prevRow[..], j)
    {
      prevRow[j] := j;
    }

    for i := 1 to m + 1
      invariant IsRow(a, b, i - 1, prevRow[..], n + 1)
    {
      currRow[0] := i;
      var aChar := a[i - 1];
      for j := 1 to n + 1
        invariant IsRow(a, b, i - 1, prevRow[..], n + 1)
        invariant IsRow(a, b, i, currRow[..], j)
      {
        var cost := if aChar == b[j - 1] then 0 else 1;
        NextCell(a, b, i, j, prevRow[..], currRow[..]);
        currRow[j] := Min3(prevRow[j] + 1, currRow[j - 1] + 1, prevRow[j - 1] + cost);
      }
      for j := 0 to n + 1
        invariant IsRow(a, b, i, currRow[..], n + 1)
        invariant IsRow(a, b, i, prevRow[..], j)
      {
        prevRow[j] := currRow[j];
      }
    }
    return prevRow[n];
  }

  // ---------------------------------------------------------------- suggestions

  const KNOWN_COMMANDS: seq<string> := [
    "init", "dev", "deploy", "status", "check", "doctor", "simulate", "sim", "compare", "add", "login", "logout",
    "whoami", "logs", "secrets", "rollback", "undeploy", "usage", "cost", "export", "import", "upgrade", "update",
    "sync", "uninstall", "completions", "completion", "version"]

  /** `r` is the first command nearest to `cmd` among `known`, at distance at most two. */
  ghost predicate FirstNearest(cmd: string, known: seq<string>, r: string) {
    Distance(cmd, r) <= 2 &&
    exists i :: 0 <= i < |known| && known[i] == r
      && (forall j :: 0 <= j < |known| ==> Distance(cmd, r) <= Distance(cmd, known[j]))
      && (forall j :: 0 <= j < i ==> Distance(cmd, r) < Distance(cmd, known[j]))
  }

  /** `cmd` has been lower-cased. */
  method FindClosestCommand(cmd: string) returns (r: Option<string>)
    ensures r.Some? ==> FirstNearest(cmd, KNOWN_COMMANDS, r.value)
    ensures r.None? <==> forall i :: 0 <= i < |KNOWN_COMMANDS| ==> Distance(cmd, KNOWN_COMMANDS[i]) > 2
  {
    r := None;
    var minDistance := 3;
    ghost var best := -1;
    for n := 0 to |KNOWN_COMMANDS|
      invariant r.None? ==> minDistance == 3
      invariant r.Some? ==> 0 <= best < n && r.value == KNOWN_COMMANDS[best] && minDistance == Distance(cmd, r.value) <= 2
      invariant r.Some? ==> forall j :: 0 <= j < best ==> minDistance < Distance(cmd, KNOWN_COMMANDS[j])
      invariant forall j :: 0 <= j < n ==> minDistance <= Distance(cmd, KNOWN_COMMANDS[j])
    {
      var dist := Levenshtein(cmd, KNOWN_COMMANDS[n]);
      if dist < minDistance {
        minDistance := dist;
        r := Some(KNOWN_COMMANDS[n]);
        best := n;
      }
    }
  }
}

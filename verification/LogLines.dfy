/** Splitting a chunked log stream into lines (cli/logs.ts). */
module LogLines {

  /** The pieces of `s` between line ends, a line end being LF with an optional CR
      before it; `piece` is what has been read of the current piece. */
  function Split(s: string, piece: string): (pieces: seq<string>)
    ensures pieces != []
    decreases |s|
  {
    if s == "" then [piece]
    else if s[0] == '\n' then [piece] + Split(s[1..], "")
    else if "\r\n" <= s then [piece] + Split(s[2..], "")
    else Split(s[1..], piece + [s[0]])
  }

  function Concat(chunks: seq<string>): string {
    if chunks == [] then "" else Concat(chunks[..|chunks| - 1]) + chunks[|chunks| - 1]
  }

  /** The complete pieces, and the piece the text stops in. */
  function Complete(s: string): seq<string> {
    var pieces := Split(s, "");
    pieces[..|pieces| - 1]
  }

  function Rest(s: string): string {
    var pieces := Split(s, "");
    pieces[|pieces| - 1]
  }

  /** All lines of a text read at once, less a final empty piece. */
  function Lines(s: string): seq<string> {
    if Rest(s) == "" then Complete(s) else Split(s, "")
  }

  /** Reading `s` next does not turn a CR at the end of `piece` into part of a line end. */
  predicate Separate(piece: string, s: string) {
    '\n' !in piece && !(piece != "" && piece[|piece| - 1] == '\r' && s != "" && s[0] == '\n')
  }

  lemma {:induction false} ReadAhead(piece: string, s: string, acc: string)
    requires Separate(piece, s)
    ensures Split(piece + s, acc) == Split(s, acc + piece)
  {
    if piece == "" {
      assert piece + s == s && acc + piece == acc;
    } else {
      assert (piece + s)[1..] == piece[1..] + s;
      assert acc + [piece[0]] + piece[1..] == acc + piece;
      assert piece + s == [piece[0]] + (piece[1..] + s);
      assert piece[1..] + s != "" ==> (piece + s)[1] == (piece[1..] + s)[0];
      ReadAhead(piece[1..], s, acc + [piece[0]]);
    }
  }

  lemma SplitStep(s: string, piece: string)
    requires s != ""
    ensures Split(s, piece) ==
      if s[0] == '\n' then [piece] + Split(s[1..], "")
      else if "\r\n" <= s then [piece] + Split(s[2..], "")
      else Split(s[1..], piece + [s[0]])
  {
  }

  lemma SplitNone(piece: string)
    ensures Split("", piece) == [piece]
  {
  }

  /** The cut falls between a CR and its LF. */
  lemma SplitInsideLineEnd(b: string, piece: string)
    requires b != "" && b[0] == '\n' && Separate(piece, "\r" + b)
    ensures Split("\r" + b, piece) == Split(piece + "\r" + b, "") && Split("\r", piece) == [piece + "\r"]
  {
    assert "\r"[1..] == "" && piece + ['\r'] == piece + "\r";
    assert piece + "\r" + b == piece + ("\r" + b) && "" + piece == piece;
    ReadAhead(piece, "\r" + b, "");
  }

  /** Splitting a text at any point: the pieces completed before it, then the
      unfinished piece joined to what follows, even between a CR and its LF. */
  lemma {:induction false} SplitAnywhere(a: string, b: string, piece: string)
    requires Separate(piece, a + b)
    ensures var before := Split(a, piece);
      Split(a + b, piece) == before[..|before| - 1] + Split(before[|before| - 1] + b, "")
    decreases |a|
  {
    hide Split;
    if a == "" {
      SplitNone(piece);
      assert a + b == b && "" + piece == piece;
      ReadAhead(piece, b, "");
    } else {
      SplitStep(a, piece);
      SplitStep(a + b, piece);
      if a[0] == '\n' {
        assert (a + b)[1..] == a[1..] + b;
        SplitAnywhere(a[1..], b, "");
      } else if "\r\n" <= a {
        assert (a + b)[2..] == a[2..] + b && a + b == "\r\n" + (a + b)[2..];
        SplitAnywhere(a[2..], b, "");
      } else if "\r\n" <= a + b {
        assert a == "\r" && b[0] == '\n';
        SplitInsideLineEnd(b, piece);
      } else {
        assert (a + b)[1..] == a[1..] + b && (a + b)[0] == a[0];
        if a[0] == '\r' && a[1..] + b != "" {
          assert a + b == [a[0]] + (a[1..] + b) && (a[1..] + b)[0] == (a + b)[1];
        }
        SplitAnywhere(a[1..], b, piece + [a[0]]);
      }
    }
  }

  /** However a text is cut into chunks, streaming yields the lines of the whole text. */
  method StreamLines(chunks: seq<string>) returns (lines: seq<string>)
    ensures lines == Lines(Concat(chunks))
  {
    lines := [];
    var buffer := "";
    for k := 0 to |chunks|
      invariant lines == Complete(Concat(chunks[..k]))
      invariant buffer == Rest(Concat(chunks[..k]))
    {
      ghost var soFar := Concat(chunks[..k]);
      assert chunks[..k + 1][..k] == chunks[..k];
      SplitAnywhere(soFar, chunks[k], "");
      assert Split(soFar + chunks[k], "") == lines + Split(buffer + chunks[k], "");
      buffer := buffer + chunks[k];
      var pieces := Split(buffer, "");
      buffer := pieces[|pieces| - 1];
      lines := lines + pieces[..|pieces| - 1];
    }
    assert chunks[..|chunks|] == chunks;
    if |buffer| > 0 {
      lines := lines + [buffer];
    }
  }

  /** The text with every CR LF pair written as LF. */
  function Normalised(s: string): string
    decreases |s|
  {
    if s == "" then "" else if "\r\n" <= s then "\n" + Normalised(s[2..]) else [s[0]] + Normalised(s[1..])
  }

  function Joined(pieces: seq<string>): string
    requires pieces != []
  {
    if |pieces| == 1 then pieces[0] else pieces[0] + "\n" + Joined(pieces[1..])
  }

  /** The pieces hold no line feed and, joined by line feeds, are the whole text:
      nothing is lost, repeated or reordered. */
  lemma {:induction false} SplitLosesNothing(s: string, piece: string)
    requires '\n' !in piece
    ensures forall i :: 0 <= i < |Split(s, piece)| ==> '\n' !in Split(s, piece)[i]
    ensures Joined(Split(s, piece)) == piece + Normalised(s)
    decreases |s|
  {
    if s != "" {
      if s[0] == '\n' {
        SplitLosesNothing(s[1..], "");
        assert Split(s, piece)[1..] == Split(s[1..], "");
      } else if "\r\n" <= s {
        SplitLosesNothing(s[2..], "");
        assert Split(s, piece)[1..] == Split(s[2..], "");
      } else {
        SplitLosesNothing(s[1..], piece + [s[0]]);
        assert piece + [s[0]] + Normalised(s[1..]) == piece + ([s[0]] + Normalised(s[1..]));
      }
    }
  }

  /** Each line followed by a line feed. */
  function Terminated(lines: seq<string>): string {
    if lines == [] then "" else lines[0] + "\n" + Terminated(lines[1..])
  }

  lemma {:induction false} JoinedIsTerminated(pieces: seq<string>)
    requires pieces != []
    ensures Joined(pieces) == Terminated(pieces[..|pieces| - 1]) + pieces[|pieces| - 1]
    ensures Terminated(pieces) == Joined(pieces) + "\n"
  {
    if |pieces| == 1 {
      assert pieces[1..] == [] && pieces[..0] == [];
      assert Terminated(pieces) == pieces[0] + "\n" + "";
    } else {
      JoinedIsTerminated(pieces[1..]);
      assert pieces[..|pieces| - 1][1..] == pieces[1..][..|pieces| - 2];
      assert pieces[0] + "\n" + (Terminated(pieces[1..][..|pieces| - 2]) + pieces[|pieces| - 1])
        == pieces[0] + "\n" + Terminated(pieces[1..][..|pieces| - 2]) + pieces[|pieces| - 1];
      assert pieces[0] + "\n" + (Joined(pieces[1..]) + "\n") == pieces[0] + "\n" + Joined(pieces[1..]) + "\n";
    }
  }

  /** The lines hold no line feed and are the text, CR LF written as LF, but for a line feed
      that a last line may lack. */
  lemma LinesAreTheText(s: string)
    ensures forall i :: 0 <= i < |Lines(s)| ==> '\n' !in Lines(s)[i]
    ensures Terminated(Lines(s)) == Normalised(s) + if Rest(s) == "" then "" else "\n"
    ensures Rest(s) == "" <==> s == "" || s[|s| - 1] == '\n'
  {
    SplitLosesNothing(s, "");
    JoinedIsTerminated(Split(s, ""));
    RestIsEmptyIff(s, "");
    assert "" + Normalised(s) == Normalised(s);
  }

  lemma {:induction false} RestIsEmptyIff(s: string, piece: string)
    ensures var pieces := Split(s, piece); pieces[|pieces| - 1] == "" <==> if s == "" then piece == "" else s[|s| - 1] == '\n'
    decreases |s|
  {
    if s != "" {
      if s[0] == '\n' {
        RestIsEmptyIff(s[1..], "");
      } else if "\r\n" <= s {
        RestIsEmptyIff(s[2..], "");
      } else {
        RestIsEmptyIff(s[1..], piece + [s[0]]);
      }
    }
  }
}

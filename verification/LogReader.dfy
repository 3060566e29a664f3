/**
 The log endpoint: a file's text is cut into lines, and a request gets the lines before a position.
 */
module LogReader {
  import opened Common

  const DEFAULT_LIMIT := 100
  const MAX_LIMIT := 1000

  /** How many characters the first step over `text` takes: two for a carriage return with its line feed. */
  function Stride(text: string): nat
    requires text != ""
  {
    if |text| >= 2 && text[0] == '\r' && text[1] == '\n' then 2 else 1
  }

  /** Replaces every carriage return followed by a line feed by the line feed. */
  function DropCarriageReturns(text: string): string {
    if text == "" then "" else [text[Stride(text) - 1]] + DropCarriageReturns(text[Stride(text)..])
  }

  datatype Line = Line(text: string)

  const NO_TEXT := Line("")

  /** The pieces between line feeds; one more than there are line feeds. */
  function Pieces(text: string): (pieces: seq<Line>)
    ensures pieces != []
  {
    if text == "" then [NO_TEXT]
    else
      var rest := Pieces(text[1..]);
      if text[0] == '\n' then [NO_TEXT] + rest else [Line([text[0]] + rest[0].text)] + rest[1..]
  }

  /** The pieces that are lines: a last piece without text is none. */
  function WithoutEmptyEnd(pieces: seq<Line>): seq<Line>
    requires pieces != []
  {
    if pieces[|pieces| - 1] == NO_TEXT then pieces[..|pieces| - 1] else pieces
  }

  function Lines(text: string): seq<Line> {
    WithoutEmptyEnd(Pieces(DropCarriageReturns(text)))
  }

  /** Empty, or ended by a line feed: the writer is not in the middle of a line. */
  predicate Terminated(text: string) {
    text == "" || text[|text| - 1] == '\n'
  }

  lemma StrideAppend(text: string, more: string)
    requires text != "" && (text[|text| - 1] != '\r' || more == "" || more[0] != '\n')
    ensures var n := Stride(text);
            && 0 < n <= |text| && Stride(text + more) == n
            && (text + more)[n..] == text[n..] + more && (text + more)[n - 1] == text[n - 1]
            && (text[n..] == "" || text[n..][|text[n..]| - 1] == text[|text| - 1])
  {
  }

  lemma DropStep(text: string)
    requires text != ""
    ensures Stride(text) <= |text|
    ensures DropCarriageReturns(text) == [text[Stride(text) - 1]] + DropCarriageReturns(text[Stride(text)..])
  {
  }

  lemma Rejoin(first: string, front: string, back: string, rest: string)
    requires rest == front + back
    ensures first + rest == (first + front) + back
  {
  }

  lemma DropBoth(text: string, more: string)
    requires text != "" && (text[|text| - 1] != '\r' || more == "" || more[0] != '\n')
    ensures var n := Stride(text);
            && 0 < n <= |text|
            && (text[n..] == "" || text[n..][|text[n..]| - 1] == text[|text| - 1])
            && DropCarriageReturns(text) == [text[n - 1]] + DropCarriageReturns(text[n..])
            && DropCarriageReturns(text + more) == [text[n - 1]] + DropCarriageReturns(text[n..] + more)
  {
    hide Stride, DropCarriageReturns;
    StrideAppend(text, more);
    DropStep(text);
    DropStep(text + more);
  }

  lemma {:induction false} DropAppend(text: string, more: string)
    requires text == "" || text[|text| - 1] != '\r' || more == "" || more[0] != '\n'
    ensures DropCarriageReturns(text + more) == DropCarriageReturns(text) + DropCarriageReturns(more)
    decreases |text|
  {
    if text == "" {
      assert text + more == more;
    } else {
      hide Stride, DropCarriageReturns;
      DropBoth(text, more);
      var n := Stride(text);
      DropAppend(text[n..], more);
      Rejoin([text[n - 1]], DropCarriageReturns(text[n..]), DropCarriageReturns(more),
             DropCarriageReturns(text[n..] + more));
    }
  }

  lemma {:induction false} DropKeepsEnd(text: string)
    requires text != ""
    ensures var dropped := DropCarriageReturns(text);
            dropped != "" && (dropped[|dropped| - 1] == '\n' <==> text[|text| - 1] == '\n')
    decreases |text|
  {
    var rest := text[Stride(text)..];
    if rest == "" {
      assert DropCarriageReturns(text) == [text[|text| - 1]];
    } else {
      DropKeepsEnd(rest);
    }
  }

  /** Two lists of pieces, the last of the first and the first of the second run together. */
  function Glue(a: seq<Line>, b: seq<Line>): seq<Line>
    requires a != [] && b != []
  {
    a[..|a| - 1] + [Line(a[|a| - 1].text + b[0].text)] + b[1..]
  }

  lemma GlueHead(c: char, a: seq<Line>, b: seq<Line>)
    requires a != [] && b != []
    ensures Glue([Line([c] + a[0].text)] + a[1..], b) == [Line([c] + Glue(a, b)[0].text)] + Glue(a, b)[1..]
    ensures Glue([NO_TEXT] + a, b) == [NO_TEXT] + Glue(a, b)
  {
    assert ([c] + a[0].text) + b[0].text == [c] + (a[0].text + b[0].text);
  }

  lemma {:induction false} PiecesAppend(text: string, more: string)
    ensures Pieces(text + more) == Glue(Pieces(text), Pieces(more))
    decreases |text|
  {
    if text == "" {
      assert text + more == more;
      assert "" + Pieces(more)[0].text == Pieces(more)[0].text;
    } else {
      PiecesAppend(text[1..], more);
      assert (text + more)[1..] == text[1..] + more;
      GlueHead(text[0], Pieces(text[1..]), Pieces(more));
      hide Glue;
    }
  }

  /** The last piece is empty exactly when the text is terminated. */
  lemma {:induction false} LastPiece(text: string)
    ensures var pieces := Pieces(text); pieces[|pieces| - 1] == NO_TEXT <==> Terminated(text)
    decreases |text|
  {
    if text != "" {
      LastPiece(text[1..]);
      if |text| == 1 {
        assert Pieces(text[1..]) == [NO_TEXT];
      }
    }
  }

  lemma GlueTerminated(a: seq<Line>, b: seq<Line>)
    requires a != [] && b != [] && a[|a| - 1] == NO_TEXT
    ensures WithoutEmptyEnd(Glue(a, b)) == WithoutEmptyEnd(a) + WithoutEmptyEnd(b)
  {
    assert Line("" + b[0].text) == b[0];
    assert Glue(a, b) == a[..|a| - 1] + b;
  }

  /** When the file ends with a line feed, what is appended to it appends lines and changes none. */
  lemma LinesAppend(text: string, more: string)
    requires Terminated(text)
    ensures Lines(text + more) == Lines(text) + Lines(more)
  {
    var a, b := DropCarriageReturns(text), DropCarriageReturns(more);
    DropTerminated(text);
    DropAppend(text, more);
    PiecesAppend(a, b);
    LastPiece(a);
    hide Pieces, Glue, DropCarriageReturns, Terminated, WithoutEmptyEnd;
    GlueTerminated(Pieces(a), Pieces(b));
  }

  lemma DropTerminated(text: string)
    ensures Terminated(DropCarriageReturns(text)) <==> Terminated(text)
  {
    if text != "" {
      DropKeepsEnd(text);
    }
  }

  /**
   Growing a file by appending bytes only appends lines, whatever the bytes, if and only if the file did not stop in
   the middle of a line.
   */
  lemma AppendOnlyIff(text: string)
    ensures (forall more :: Lines(text) <= Lines(text + more)) <==> Terminated(text)
  {
    if Terminated(text) {
      forall more
        ensures Lines(text) <= Lines(text + more)
      {
        LinesAppend(text, more);
      }
    } else {
      UnterminatedChanges(text);
    }
  }

  /** The half line "b" turns into another line when its end arrives. */
  lemma UnterminatedChanges(text: string)
    requires !Terminated(text)
    ensures !(Lines(text) <= Lines(text + "x"))
  {
    DropAppend(text, "x");
    DropKeepsEnd(text);
    var a := DropCarriageReturns(text);
    assert DropCarriageReturns("x") == "x" by {
      assert "x"[1..] == "";
    }
    PiecesAppend(a, "x");
    LastPiece(a);
    DropTerminated(text);
    assert Pieces("x") == [Line("x")] by {
      assert "x"[1..] == "";
    }
    hide Pieces, DropCarriageReturns, Terminated, Glue, WithoutEmptyEnd;
    GlueChanges(Pieces(a));
  }

  lemma GlueChanges(pieces: seq<Line>)
    requires pieces != [] && pieces[|pieces| - 1] != NO_TEXT
    ensures !(WithoutEmptyEnd(pieces) <= WithoutEmptyEnd(Glue(pieces, [Line("x")])))
  {
    var last := |pieces| - 1;
    assert Glue(pieces, [Line("x")])[last] == Line(pieces[last].text + "x");
    assert |pieces[last].text + "x"| != |pieces[last].text|;
  }

  /** Text without a line feed. */
  predicate Unbroken(text: string) {
    forall i :: 0 <= i < |text| ==> text[i] != '\n'
  }

  lemma {:induction false} DropNothing(text: string)
    requires Unbroken(text)
    ensures DropCarriageReturns(text) == text
    decreases |text|
  {
    if text != "" {
      DropNothing(text[1..]);
      assert [text[0]] + text[1..] == text;
    }
  }

  lemma DropEnds()
    ensures DropCarriageReturns("\n") == "\n" && DropCarriageReturns("\r\n") == "\n"
  {
    assert "\n"[1..] == "" && "\r\n"[2..] == "";
  }

  lemma {:induction false} OnePiece(text: string)
    requires Unbroken(text)
    ensures Pieces(text) == [Line(text)]
    decreases |text|
  {
    if text != "" {
      OnePiece(text[1..]);
      assert [text[0]] + text[1..] == text;
    }
  }

  lemma OneBreak()
    ensures Pieces("\n") == [NO_TEXT, NO_TEXT]
  {
    assert "\n"[1..] == "";
  }

  lemma TwoPieces(text: string)
    requires Unbroken(text)
    ensures Pieces(text + "\n") == [Line(text), NO_TEXT]
  {
    PiecesAppend(text, "\n");
    OnePiece(text);
    OneBreak();
    hide Pieces;
    assert text + "" == text;
  }

  /**
   What a line is. Text up to a line feed is one line, without the line feed; a carriage return just before the line
   feed does not belong to it, any other does; text after the last line feed is a line if there is any.
   */
  lemma LineRead(text: string)
    requires Unbroken(text)
    ensures text == "" || text[|text| - 1] != '\r' ==> Lines(text + "\n") == [Line(text)]
    ensures Lines(text + "\r\n") == [Line(text)]
    ensures Lines(text) == if text == "" then [] else [Line(text)]
  {
    DropNothing(text);
    DropEnds();
    OnePiece(text);
    TwoPieces(text);
    if text == "" || text[|text| - 1] != '\r' {
      DropAppend(text, "\n");
    }
    DropAppend(text, "\r\n");
    hide Pieces, DropCarriageReturns;
  }

  /** Line by line, a whole file: its first line, up to its line feed, and then the lines of what follows. */
  lemma FirstLine(text: string, ending: string, rest: string)
    requires Unbroken(text) && (ending == "\r\n" || (ending == "\n" && (text == "" || text[|text| - 1] != '\r')))
    ensures Lines(text + ending + rest) == [Line(text)] + Lines(rest)
  {
    LineRead(text);
    hide Lines;
    assert (text + ending)[|text + ending| - 1] == '\n';
    LinesAppend(text + ending, rest);
  }

  /** The lines of a log file; a file that does not exist yet is answered by two lines of explanation. */
  function ResolvedLines(content: Option<string>, name: string): seq<Line> {
    match content
    case Some(text) => Lines(text)
    case None => [Line("Log file not created yet."), Line("Waiting for first log output from " + name + ".")]
  }

  /**
   A number in a query: absent, not a finite number, or finite, given here by its integral part. An empty `limit` is the
   number zero, an empty `before` counts as absent.
   */
  datatype Query = Absent | NotFinite | Finite(truncated: int)

  function Clamp(low: int, high: int, x: int): int
    requires low <= high
  {
    if x < low then low else if x > high then high else x
  }

  function Limit(value: Query): (limit: nat)
    ensures 1 <= limit <= 1000
    ensures !value.Finite? ==> limit == 100
    ensures value.Finite? && 1 <= value.truncated <= 1000 ==> limit == value.truncated
    ensures value.Finite? && value.truncated < 1 ==> limit == 1
    ensures value.Finite? && value.truncated > 1000 ==> limit == 1000
  {
    match value
    case Finite(n) => Clamp(1, MAX_LIMIT, n)
    case _ => DEFAULT_LIMIT
  }

  function Before(value: Query, total: nat): (before: nat)
    ensures before <= total
    ensures !value.Finite? ==> before == total
    ensures value.Finite? && 0 <= value.truncated <= total ==> before == value.truncated
    ensures value.Finite? && value.truncated < 0 ==> before == 0
    ensures value.Finite? && value.truncated > total ==> before == total
  {
    match value
    case Finite(n) => Clamp(0, total, n)
    case _ => total
  }

  datatype Chunk<T> = Chunk(totalLines: nat, start: nat, end: nat, hasMore: bool, nextBefore: nat, lines: seq<T>)

  /** The answer to a read of `lines`. */
  function Read<T>(lines: seq<T>, before: Query, limit: nat): Chunk<T> {
    var end := Before(before, |lines|);
    var start := if end > limit then end - limit else 0;
    Chunk(|lines|, start, end, start > 0, start, lines[start..end])
  }
}

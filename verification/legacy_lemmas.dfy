/**
 * What the older codec of src/network.rs does with what its `Display`
 * writes: every message other than a canvas is read back whole; a canvas of
 * ASCII cells is read back but its final line feed is left in the input,
 * where the next read finds a line without content; a canvas with a cell
 * outside ASCII is not read back, since its cells take more bytes than the
 * reader counts. `DecodeFixed`, which consumes that line
 * feed, reads a whole stream back in order.
 */
module LegacyCodecProperties {
  import opened Basics
  import opened Text
  import opened Versions
  import opened CanvasGrid
  import opened CanvasInsert
  import opened Input
  import opened LegacyCodec

  /**
   * A message `Display` writes in a form `from_reader` reads back: its
   * character is one word, and its cells hold no line feed and are ASCII, one
   * byte each, as many bytes as the reader takes.
   */
  predicate RoundTrips(m: Message) {
    && WellFormed(m)
    && (m.SetChar? ==> !IsAsciiWhitespace(m.c))
    && (m.CanvasUpdate? ==> '\n' !in m.canvas.Serialize() && IsAscii(m.canvas.Serialize()))
  }

  /** The first line `Display` writes, without its line feed. */
  function HeaderText(m: Message): string {
    Join(HeaderWords(m), ' ') + if m.CanvasUpdate? then " " else ""
  }

  lemma HeaderWordsAreWords(m: Message)
    requires m.SetChar? ==> !IsAsciiWhitespace(m.c)
    ensures forall i :: 0 <= i < |HeaderWords(m)| ==> IsWord(HeaderWords(m)[i]) && '\n' !in HeaderWords(m)[i]
  {
    match m
    case SetChar(x, y, c) =>
      NatToStringIsWord(x);
      NatToStringIsWord(y);
    case CanvasUpdate(g) =>
      NatToStringIsWord(g.height);
      NatToStringIsWord(g.width);
    case VersionReq(v) =>
      FormatVersionIsWord(v);
    case VersionAck =>
    case Quit =>
  }

  /** The header line splits on whitespace into exactly the words `Display` wrote, and holds no line feed. */
  lemma HeaderTokens(m: Message)
    requires m.SetChar? ==> !IsAsciiWhitespace(m.c)
    ensures '\n' !in HeaderText(m)
    ensures Tokens(HeaderText(m) + "\n") == HeaderWords(m)
  {
    HeaderWordsAreWords(m);
    JoinAvoids(HeaderWords(m), ' ', '\n');
    var tail := if m.CanvasUpdate? then " \n" else "\n";
    assert HeaderText(m) + "\n" == Join(HeaderWords(m), ' ') + tail;
    TokensJoin(HeaderWords(m), tail);
  }

  lemma ParseSetCharWords(x: usize, y: usize, c: char)
    requires !IsAsciiWhitespace(c)
    ensures ParseLine(HeaderText(SetChar(x, y, c)) + "\n") == Ok(Complete(SetChar(x, y, c)))
  {
    HeaderTokens(SetChar(x, y, c));
    ParseUnsignedOfNatToString(y, UsizeMax);
    ParseUnsignedOfNatToString(x, UsizeMax);
  }

  lemma ParseCanvasWords(g: Grid)
    requires WellFormed(CanvasUpdate(g))
    ensures ParseLine(HeaderText(CanvasUpdate(g)) + "\n") == Ok(CanvasHeader(g.width, g.height))
  {
    HeaderTokens(CanvasUpdate(g));
    ParseUnsignedOfNatToString(g.height, UsizeMax);
    ParseUnsignedOfNatToString(g.width, UsizeMax);
  }

  lemma ParseVersionReqWords(v: Version)
    ensures ParseLine(HeaderText(VersionReq(v)) + "\n") == Ok(Complete(VersionReq(v)))
  {
    HeaderTokens(VersionReq(v));
    ParseFormatVersion(v);
  }

  /** Every header line parses back: a whole message, or the size of the canvas whose cells follow. */
  lemma ParseHeader(m: Message)
    requires RoundTrips(m)
    ensures ParseLine(HeaderText(m) + "\n") == if m.CanvasUpdate? then Ok(CanvasHeader(m.canvas.width, m.canvas.height)) else Ok(Complete(m))
  {
    match m
    case SetChar(x, y, c) => ParseSetCharWords(x, y, c);
    case CanvasUpdate(g) => ParseCanvasWords(g);
    case VersionReq(v) => ParseVersionReqWords(v);
    case VersionAck =>
      HeaderTokens(m);
    case Quit =>
      HeaderTokens(m);
  }

  /** `Display` is the header line, its line feed, and for a canvas the cells and a line feed. */
  lemma FormatParts(m: Message)
    requires WellFormed(m)
    ensures !m.CanvasUpdate? ==> Format(m) == HeaderText(m) + "\n"
    ensures m.CanvasUpdate? ==> Format(m) == HeaderText(m) + "\n" + (m.canvas.Serialize() + "\n")
  {
  }

  /** `from_reader` on a first line that is a whole message. */
  lemma DecodeComplete(data: string, pos: nat, text: string, end: nat, m: Message)
    requires pos <= |data| && NextLine(data, pos) == LineRead(text, end, true)
    requires ParseLine(text + "\n") == Ok(Complete(m))
    ensures Decode(data, pos) == Decoded(Ok(m), end)
  {
  }

  /** `from_reader` on a canvas header line followed by ASCII cells, one byte each, that fill the canvas. */
  lemma DecodeCanvas(data: string, pos: nat, text: string, e: nat, g: Grid, n: nat, placed: nat)
    requires pos <= |data| && NextLine(data, pos) == LineRead(text, e, true)
    requires g.width <= UsizeMax && g.height <= UsizeMax && n == g.width * g.height <= UsizeMax
    requires ParseLine(text + "\n") == Ok(CanvasHeader(g.width, g.height))
    requires e + n <= |data| && IsAscii(data[e..e + n])
    requires Insert(NewGrid(g.width, g.height), data[e..e + n]) == Done(g, placed)
    ensures Decode(data, pos) == Decoded(Ok(CanvasUpdate(g)), e + n)
  {
    TakeBytesAscii(data, e, n);
  }

  /** After a canvas whose cells are followed by a line feed, the corrected reader also takes that line feed. */
  lemma DecodeFixedCanvas(data: string, pos: nat, text: string, e: nat, g: Grid, n: nat, placed: nat)
    requires pos <= |data| && NextLine(data, pos) == LineRead(text, e, true)
    requires g.width <= UsizeMax && g.height <= UsizeMax && n == g.width * g.height <= UsizeMax
    requires ParseLine(text + "\n") == Ok(CanvasHeader(g.width, g.height))
    requires e + n < |data| && data[e + n] == '\n' && IsAscii(data[e..e + n])
    requires Insert(NewGrid(g.width, g.height), data[e..e + n]) == Done(g, placed)
    ensures DecodeFixed(data, pos) == Decoded(Ok(CanvasUpdate(g)), e + n + 1)
  {
    DecodeCanvas(data, pos, text, e, g, n, placed);
  }

  /** Round trip, a message other than a canvas: read back whole, whatever precedes and follows it. */
  lemma DecodeLineAt(data: string, pos: nat, m: Message)
    requires RoundTrips(m) && !m.CanvasUpdate? && LiesAt(data, pos, Format(m))
    ensures pos + |Format(m)| <= |data| && Decode(data, pos) == Decoded(Ok(m), pos + |Format(m)|)
  {
    HeaderTokens(m);
    ParseHeader(m);
    FormatParts(m);
    NextLineOf(data, pos, HeaderText(m));
    DecodeComplete(data, pos, HeaderText(m), pos + |Format(m)|, m);
  }

  /** The cells `Display` writes for a canvas fill a blank canvas of its size with them. */
  lemma CellsFill(g: Grid)
    requires RoundTrips(CanvasUpdate(g))
    ensures Insert(NewGrid(g.width, g.height), g.Serialize()) == Done(g, g.width * g.height)
  {
    assert g.Serialize() + "" == g.Serialize();
    InsertSerialized(g, "");
  }

  /**
   * Round trip, a canvas, as written: `from_reader` reads the canvas back
   * but stops before the line feed `Display` wrote after the cells.
   */
  lemma DecodeCanvasAt(data: string, pos: nat, g: Grid)
    requires RoundTrips(CanvasUpdate(g)) && LiesAt(data, pos, Format(CanvasUpdate(g)))
    ensures pos + |Format(CanvasUpdate(g))| <= |data| && data[pos + |Format(CanvasUpdate(g))| - 1] == '\n'
    ensures Decode(data, pos) == Decoded(Ok(CanvasUpdate(g)), pos + |Format(CanvasUpdate(g))| - 1)
  {
    var e := CanvasAt(data, pos, g);
    DecodeCanvas(data, pos, HeaderText(CanvasUpdate(g)), e, g, g.width * g.height, g.width * g.height);
  }

  /** A canvas lying at `pos`: its header line ends at `e`, and its cells follow up to the final line feed. */
  lemma CanvasAt(data: string, pos: nat, g: Grid) returns (e: nat)
    requires RoundTrips(CanvasUpdate(g)) && LiesAt(data, pos, Format(CanvasUpdate(g)))
    ensures NextLine(data, pos) == LineRead(HeaderText(CanvasUpdate(g)), e, true)
    ensures ParseLine(HeaderText(CanvasUpdate(g)) + "\n") == Ok(CanvasHeader(g.width, g.height))
    ensures e + g.width * g.height + 1 == pos + |Format(CanvasUpdate(g))| <= |data|
    ensures data[e + g.width * g.height] == '\n' && IsAscii(data[e..e + g.width * g.height])
    ensures Insert(NewGrid(g.width, g.height), data[e..e + g.width * g.height]) == Done(g, g.width * g.height)
  {
    var m := CanvasUpdate(g);
    var header := HeaderText(m);
    HeaderTokens(m);
    ParseHeader(m);
    FormatParts(m);
    LiesAtHalves(data, pos, Format(m), header + "\n", g.Serialize() + "\n");
    NextLineOf(data, pos, header);
    e := pos + |header| + 1;
    CellsAt(data, e, g);
  }

  /** The cells of a canvas and a line feed lying at `e`: the `width * height` ASCII characters from `e` fill the canvas. */
  lemma CellsAt(data: string, e: nat, g: Grid)
    requires RoundTrips(CanvasUpdate(g)) && LiesAt(data, e, g.Serialize() + "\n")
    ensures e + g.width * g.height < |data| && data[e + g.width * g.height] == '\n'
    ensures IsAscii(data[e..e + g.width * g.height])
    ensures Insert(NewGrid(g.width, g.height), data[e..e + g.width * g.height]) == Done(g, g.width * g.height)
  {
    var cells := g.Serialize();
    LiesAtHalves(data, e, cells + "\n", cells, "\n");
    LiesAtSlice(data, e, cells);
    LiesAtSlice(data, e + |cells|, "\n");
    CellsFill(g);
  }

  /** The line feed left after a canvas is read as a line without content. */
  lemma DecodeLeftover(data: string, pos: nat)
    requires pos < |data| && data[pos] == '\n'
    ensures Decode(data, pos) == Decoded(Err(ParseError(NoContent, "\n")), pos + 1)
  {
    assert LiesAt(data, pos, "" + "\n");
    NextLineOf(data, pos, "");
    assert "" + "\n" == "\n";
    TokensBlank("\n");
  }

  /**
   * A canvas with a cell outside ASCII does not read back: `Display` writes
   * the 1 x 1 canvas holding `é` as "cs 1 1 \né\n" (see `NonAsciiCellWritten`),
   * but the one byte the reader takes ends inside the two bytes of `é`, and
   * `String::from_utf8` refuses it.
   */
  lemma NonAsciiCellRefused(data: string)
    requires data == "cs 1 1 \n\U{E9}\n"
    ensures Decode(data, 0) == Decoded(Err(ParseError(InvalidContents, "cs 1 1 \n")), 9)
  {
    NonAsciiHeaderLine(data);
    NonAsciiHeader(NextLine(data, 0).Raw());
    NonAsciiCellBytes(data);
    assert ReadCells(data, 8, 1, 1, "cs 1 1 \n") == Decoded(Err(ParseError(InvalidContents, "cs 1 1 \n")), 9);
  }

  lemma NonAsciiHeaderLine(data: string)
    requires data == "cs 1 1 \n\U{E9}\n"
    ensures NextLine(data, 0) == LineRead("cs 1 1 ", 8, true)
    ensures NextLine(data, 0).Raw() == "cs 1 1 \n"
  {
    assert "cs 1 1 " + "\n" == data[0..8];
    LiesAtSlice(data, 0, "cs 1 1 \n");
    NextLineOf(data, 0, "cs 1 1 ");
  }

  /** The one byte after the header ends inside `é`, which takes two. */
  lemma NonAsciiCellBytes(data: string)
    requires data == "cs 1 1 \n\U{E9}\n"
    ensures TakeBytes(data, 8, 1) == MidCharacter(9)
  {
    assert data[8] == '\U{E9}';
  }

  lemma NonAsciiHeader(line: string)
    requires line == "cs 1 1 \n"
    ensures ParseLine(line) == Ok(CanvasHeader(1, 1))
  {
    var g := Grid(1, 1, [['\U{E9}']]);
    NonAsciiHeaderText();
    assert line == HeaderText(CanvasUpdate(g)) + "\n";
    ParseCanvasWords(g);
  }

  lemma NonAsciiHeaderText()
    ensures HeaderText(CanvasUpdate(Grid(1, 1, [['\U{E9}']]))) == "cs 1 1 "
  {
    assert NatToString(1) == "1";
    assert HeaderWords(CanvasUpdate(Grid(1, 1, [['\U{E9}']]))) == ["cs", "1", "1"];
    assert Join(["cs", "1", "1"], ' ') == "cs 1 1";
  }

  /** The text `Display` writes for the 1 x 1 canvas holding `é`. */
  lemma NonAsciiCellWritten()
    ensures Format(CanvasUpdate(Grid(1, 1, [['\U{E9}']]))) == "cs 1 1 \n\U{E9}\n"
  {
    var g := Grid(1, 1, [['\U{E9}']]);
    FormatParts(CanvasUpdate(g));
    NonAsciiHeaderText();
    assert Flatten(g.rows) == "\U{E9}";
  }

  /**
   * So a canvas followed by another message does not read back: on what
   * `Display` writes for a 1 x 1 canvas holding `a` and then `Quit`, the
   * read after the canvas is an error instead of `Quit`.
   */
  lemma CanvasThenQuitBreaks()
    ensures var g := Grid(1, 1, [['a']]);
      && FormatAll([CanvasUpdate(g), Quit]) == "cs 1 1 \na\nq\n"
      && Decode("cs 1 1 \na\nq\n", 0) == Decoded(Ok(CanvasUpdate(g)), 9)
      && Decode("cs 1 1 \na\nq\n", 9) == Decoded(Err(ParseError(NoContent, "\n")), 10)
  {
    var g := Grid(1, 1, [['a']]);
    CanvasThenQuitText(g);
    DecodeCanvasAt("cs 1 1 \na\nq\n", 0, g);
    DecodeLeftover("cs 1 1 \na\nq\n", 9);
  }

  /** What `Display` writes for the 1 x 1 canvas holding `a`, then for `Quit`. */
  lemma CanvasThenQuitText(g: Grid)
    requires g == Grid(1, 1, [['a']])
    ensures RoundTrips(CanvasUpdate(g)) && |Format(CanvasUpdate(g))| == 10
    ensures FormatAll([CanvasUpdate(g), Quit]) == "cs 1 1 \na\nq\n"
    ensures LiesAt("cs 1 1 \na\nq\n", 0, Format(CanvasUpdate(g)))
  {
    var data := "cs 1 1 \na\nq\n";
    assert Format(CanvasUpdate(g)) == "cs 1 1 \na\n";
    assert Format(Quit) == "q\n";
    assert Written([CanvasUpdate(g), Quit]) == [Format(CanvasUpdate(g)), Format(Quit)];
    assert Concat([Format(CanvasUpdate(g)), Format(Quit)]) == Format(CanvasUpdate(g)) + (Format(Quit) + Concat([]));
    LiesAtMiddle("", Format(CanvasUpdate(g)), "q\n");
    assert "" + Format(CanvasUpdate(g)) + "q\n" == data;
  }

  /** A read at the end of the input is `Quit`, not an error. */
  lemma DecodeAtEnd(data: string)
    ensures Decode(data, |data|) == Decoded(Ok(Quit), |data|)
  {
  }

  // ---------------------------------------------------------------------------
  // The corrected read

  /** `DecodeFixed` reads every message back whole, whatever precedes and follows it. */
  lemma DecodeFixedAt(data: string, pos: nat, m: Message)
    requires RoundTrips(m) && LiesAt(data, pos, Format(m))
    ensures pos + |Format(m)| <= |data| && DecodeFixed(data, pos) == Decoded(Ok(m), pos + |Format(m)|)
  {
    match m
    case CanvasUpdate(g) => DecodeFixedCanvasAt(data, pos, g);
    case _ => DecodeFixedLineAt(data, pos, m);
  }

  lemma DecodeFixedCanvasAt(data: string, pos: nat, g: Grid)
    requires RoundTrips(CanvasUpdate(g)) && LiesAt(data, pos, Format(CanvasUpdate(g)))
    ensures pos + |Format(CanvasUpdate(g))| <= |data|
    ensures DecodeFixed(data, pos) == Decoded(Ok(CanvasUpdate(g)), pos + |Format(CanvasUpdate(g))|)
  {
    var e := CanvasAt(data, pos, g);
    DecodeFixedCanvas(data, pos, HeaderText(CanvasUpdate(g)), e, g, g.width * g.height, g.width * g.height);
  }

  lemma DecodeFixedLineAt(data: string, pos: nat, m: Message)
    requires RoundTrips(m) && !m.CanvasUpdate? && LiesAt(data, pos, Format(m))
    ensures pos + |Format(m)| <= |data| && DecodeFixed(data, pos) == Decoded(Ok(m), pos + |Format(m)|)
  {
    DecodeLineAt(data, pos, m);
  }

  /** Where the `i`-th of the messages written from `pos` on starts. */
  function Start(pos: nat, ms: seq<Message>, i: nat): nat
    requires i <= |ms| && forall j :: 0 <= j < |ms| ==> WellFormed(ms[j])
  {
    pos + |Concat(Written(ms)[..i])|
  }

  /** The `i`-th corrected read gives the `i`-th message back and stops where the next one starts. */
  ghost predicate ReadsNth(data: string, pos: nat, ms: seq<Message>, i: nat)
    requires i < |ms| && forall j :: 0 <= j < |ms| ==> WellFormed(ms[j])
  {
    && Start(pos, ms, i) <= Start(pos, ms, i + 1) <= |data|
    && DecodeFixed(data, Start(pos, ms, i)) == Decoded(Ok(ms[i]), Start(pos, ms, i + 1))
  }

  lemma StartNext(pos: nat, ms: seq<Message>, i: nat)
    requires forall j :: 0 <= j < |ms| ==> WellFormed(ms[j])
    requires i < |ms|
    ensures Start(pos, ms, i + 1) == Start(pos, ms, i) + |Format(ms[i])|
  {
    ConcatSnoc(Written(ms), i);
  }

  lemma NthLiesAt(data: string, pos: nat, ms: seq<Message>, i: nat)
    requires forall j :: 0 <= j < |ms| ==> WellFormed(ms[j])
    requires i < |ms| && LiesAt(data, pos, FormatAll(ms))
    ensures LiesAt(data, Start(pos, ms, i), Format(ms[i]))
  {
    LiesAtPart(data, pos, Written(ms), i);
  }

  lemma DecodeFixedNth(data: string, pos: nat, ms: seq<Message>, i: nat)
    requires forall j :: 0 <= j < |ms| ==> WellFormed(ms[j]) && RoundTrips(ms[j])
    requires i < |ms| && LiesAt(data, pos, FormatAll(ms))
    ensures ReadsNth(data, pos, ms, i)
  {
    NthLiesAt(data, pos, ms, i);
    StartNext(pos, ms, i);
    DecodeFixedAt(data, Start(pos, ms, i), ms[i]);
  }

  /**
   * Round trip, a stream, for the corrected read: when messages written one
   * after another lie in the input from `pos` on, the `i`-th read starts
   * where the `i`-th message was written, gives it back, and stops where the
   * next one starts.
   */
  lemma DecodeFixedFormatAll(data: string, pos: nat, ms: seq<Message>)
    requires forall i :: 0 <= i < |ms| ==> WellFormed(ms[i]) && RoundTrips(ms[i])
    requires LiesAt(data, pos, FormatAll(ms))
    ensures forall i :: 0 <= i < |ms| ==> ReadsNth(data, pos, ms, i)
  {
    forall i | 0 <= i < |ms| {
      DecodeFixedNth(data, pos, ms, i);
    }
  }

  // ---------------------------------------------------------------------------
  // The canvas case of the parse test in src/network.rs

  /**
   * The test sends a 3 x 2 canvas as a header line and then exactly its six
   * cells, with no line feed after them; the read gives back the canvas that
   * `insert` of "X1234" into a new 3 x 2 canvas builds, and stops right after
   * the cells.
   */
  lemma ParseTestCanvas(data: string, g: Grid)
    requires data == "cs 2 3\nX1234 " && g == Grid(3, 2, ["X12", "34 "])
    ensures Decode(data, 0) == Decoded(Ok(CanvasUpdate(g)), |data|)
    ensures Insert(NewGrid(3, 2), "X1234") == Done(g, 5)
  {
    ParseTestHeaderLine(data);
    ParseTestHeader();
    ParseTestCells(data, g);
    ParseTestAscii(data);
    DecodeCanvas(data, 0, "cs 2 3", 7, g, 6, 6);
    ParseTestExpected(g);
  }

  lemma ParseTestHeaderLine(data: string)
    requires data == "cs 2 3\nX1234 "
    ensures NextLine(data, 0) == LineRead("cs 2 3", 7, true)
  {
    assert "cs 2 3" + "\n" == data[0..7];
    LiesAtSlice(data, 0, "cs 2 3\n");
    NextLineOf(data, 0, "cs 2 3");
  }

  /** The header names the height before the width. */
  lemma ParseTestHeader()
    ensures ParseLine("cs 2 3" + "\n") == Ok(CanvasHeader(3, 2))
  {
    assert IsWord("cs") && IsWord("2") && IsWord("3");
    assert Join(["cs", "2", "3"], ' ') + "\n" == "cs 2 3" + "\n";
    TokensJoin(["cs", "2", "3"], "\n");
    assert NatToString(2) == "2" && NatToString(3) == "3";
    ParseUnsignedOfNatToString(2, UsizeMax);
    ParseUnsignedOfNatToString(3, UsizeMax);
  }

  lemma ParseTestCells(data: string, g: Grid)
    requires data == "cs 2 3\nX1234 " && g == Grid(3, 2, ["X12", "34 "])
    ensures Insert(NewGrid(3, 2), data[7..13]) == Done(g, 6)
  {
    assert Flatten(g.rows) == "X1234 " == data[7..13];
    assert g.Serialize() + "" == g.Serialize();
    InsertSerialized(g, "");
  }

  lemma ParseTestAscii(data: string)
    requires data == "cs 2 3\nX1234 "
    ensures IsAscii(data[7..13])
  {
    assert data[7..13] == "X1234 ";
  }

  /** The canvas the test expects: five characters inserted, the sixth cell left blank. */
  lemma ParseTestExpected(g: Grid)
    requires g == Grid(3, 2, ["X12", "34 "])
    ensures Insert(NewGrid(3, 2), "X1234") == Done(g, 5)
  {
    var blank := NewGrid(3, 2);
    SerializeNew(3, 2);
    InsertFlat(blank, "X1234");
    var t := Insert(blank, "X1234").grid;
    assert Flatten(g.rows) == "X1234 ";
    assert t.Serialize() == g.Serialize();
    SerializeInjective(t, g);
  }
}

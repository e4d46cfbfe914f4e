/**
 * What the current codec of src/network/message.rs promises: `from_reader`
 * reads back what `Display` writes, one message per call, and a stream of
 * written messages is read back in order; and its documented behaviour on
 * the inputs of its tests.
 */
module CodecProperties {
  import opened Basics
  import opened Text
  import opened Versions
  import opened CanvasGrid
  import opened CanvasInsert
  import opened Input
  import opened Codec

  /** A message `Display` writes in a form `from_reader` reads back. */
  predicate RoundTrips(m: Message) {
    && WellFormed(m)
    && (m.CharSet? ==> CellChar(m.c))
    && (m.CanvasSet? ==> '\n' !in m.canvas.Serialize())
  }

  /** What splitting a header line on spaces gives: its fields, except that a space character shows as two empty pieces. */
  function HeaderPieces(m: Message): seq<string> {
    if m.CharSet? && m.c == ' ' then HeaderFields(m)[..3] + ["", ""] else HeaderFields(m)
  }

  /** Writing a space as the last field is writing two empty fields. */
  lemma SpaceField(fs: seq<string>)
    requires |fs| >= 1
    ensures Join(fs + [" "], ' ') == Join(fs + ["", ""], ' ')
  {
    JoinSnoc(fs, " ", ' ');
    JoinSnoc(fs, "", ' ');
    assert fs + ["", ""] == (fs + [""]) + [""];
    JoinSnoc(fs + [""], "", ' ');
  }

  lemma FieldsAreWords(m: Message)
    requires m.CharSet? ==> CellChar(m.c)
    ensures forall i :: 0 <= i < |HeaderFields(m)| ==> '\n' !in HeaderFields(m)[i]
    ensures forall i :: 0 <= i < |HeaderFields(m)| ==> ' ' !in HeaderFields(m)[i] || (m.CharSet? && i == 3)
  {
    match m
    case CharSet(x, y, c) =>
      NatToStringIsWord(x);
      NatToStringIsWord(y);
    case CanvasSet(g) =>
      NatToStringIsWord(g.height);
      NatToStringIsWord(g.width);
    case VersionReq(v) =>
      FormatVersionIsWord(v);
    case VersionAck =>
    case Quit =>
  }

  /** The header line is its pieces joined by single spaces, and none of them holds a space or a line feed. */
  lemma HeaderLineJoin(m: Message)
    requires m.CharSet? ==> CellChar(m.c)
    ensures |HeaderPieces(m)| >= 1
    ensures HeaderLine(m) == Join(HeaderPieces(m), ' ')
    ensures forall i :: 0 <= i < |HeaderPieces(m)| ==> ' ' !in HeaderPieces(m)[i] && '\n' !in HeaderPieces(m)[i]
  {
    FieldsAreWords(m);
    if m.CharSet? && m.c == ' ' {
      var fs := HeaderFields(m);
      assert fs == fs[..3] + [" "];
      SpaceField(fs[..3]);
    }
  }

  /** A header line has no line feed, so `read_line` stops at the one `Display` puts after it. */
  lemma HeaderLineSingle(m: Message)
    requires m.CharSet? ==> CellChar(m.c)
    ensures '\n' !in HeaderLine(m)
  {
    HeaderLineJoin(m);
    JoinAvoids(HeaderPieces(m), ' ', '\n');
  }

  lemma ParseCharSetLine(x: usize, y: usize, c: char)
    requires CellChar(c)
    ensures ParseLine(HeaderLine(CharSet(x, y, c))) == Ok(Complete(CharSet(x, y, c)))
  {
    var m := CharSet(x, y, c);
    HeaderLineJoin(m);
    SplitJoin(HeaderPieces(m), ' ');
    ParseUnsignedOfNatToString(y, UsizeMax);
    ParseUnsignedOfNatToString(x, UsizeMax);
  }

  lemma ParseCanvasSetLine(g: Grid)
    requires WellFormed(CanvasSet(g))
    ensures ParseLine(HeaderLine(CanvasSet(g))) == Ok(CanvasHeader(g.width, g.height))
  {
    var m := CanvasSet(g);
    HeaderLineJoin(m);
    SplitJoin(HeaderPieces(m), ' ');
    ParseUnsignedOfNatToString(g.height, UsizeMax);
    ParseUnsignedOfNatToString(g.width, UsizeMax);
  }

  lemma ParseVersionReqLine(v: Version)
    ensures ParseLine(HeaderLine(VersionReq(v))) == Ok(Complete(VersionReq(v)))
  {
    var m := VersionReq(v);
    HeaderLineJoin(m);
    SplitJoin(HeaderPieces(m), ' ');
    ParseFormatVersion(v);
  }

  /** Every header line parses back: a whole message, or the size of the canvas that follows. */
  lemma ParseHeaderLine(m: Message)
    requires RoundTrips(m)
    ensures ParseLine(HeaderLine(m)) == if m.CanvasSet? then Ok(CanvasHeader(m.canvas.width, m.canvas.height)) else Ok(Complete(m))
  {
    match m
    case CharSet(x, y, c) => ParseCharSetLine(x, y, c);
    case CanvasSet(g) => ParseCanvasSetLine(g);
    case VersionReq(v) => ParseVersionReqLine(v);
    case VersionAck =>
      SplitNone("vok", ' ');
    case Quit =>
      SplitNone("q", ' ');
  }

  lemma Regroup(a: string, b: string, c: string, d: string)
    ensures a + b + c + d == a + (b + c) + d
  {
  }

  /** `from_reader` on a first line, ending at `end`, that is a whole message. */
  lemma DecodeComplete(data: string, pos: nat, text: string, end: nat, m: Message)
    requires pos <= |data| && NextLine(data, pos) == LineRead(text, end, true)
    requires ParseLine(text) == Ok(Complete(m))
    ensures Decode(data, pos) == Decoded(Ok(m), end)
  {
  }

  /**
   * `from_reader` on a canvas header line ending at `e`, followed by a line
   * of cells ending at `end` that fills the canvas without a panic.
   */
  lemma DecodeCanvas(data: string, pos: nat, header: string, e: nat, cells: string, end: nat, g: Grid, placed: nat)
    requires pos <= |data| && NextLine(data, pos) == LineRead(header, e, true)
    requires g.width <= UsizeMax && g.height <= UsizeMax
    requires ParseLine(header) == Ok(CanvasHeader(g.width, g.height))
    requires e <= |data| && NextLine(data, e) == LineRead(cells, end, true)
    requires Insert(NewGrid(g.width, g.height), cells + "\n") == Done(g, placed)
    ensures Decode(data, pos) == Decoded(Ok(CanvasSet(g)), end)
  {
  }

  /** What `Display` writes for a message other than a canvas: one line of its header fields. */
  lemma FormatLine(m: Message)
    requires RoundTrips(m) && !m.CanvasSet?
    ensures Format(m) == HeaderLine(m) + "\n" && '\n' !in HeaderLine(m)
    ensures ParseLine(HeaderLine(m)) == Ok(Complete(m))
  {
    HeaderLineSingle(m);
    ParseHeaderLine(m);
  }

  /** What `Display` writes for a canvas: the header line, then the cells on a line of their own. */
  lemma FormatCanvas(g: Grid)
    requires RoundTrips(CanvasSet(g))
    ensures Format(CanvasSet(g)) == HeaderLine(CanvasSet(g)) + "\n" + (g.Serialize() + "\n")
    ensures '\n' !in HeaderLine(CanvasSet(g)) && '\n' !in g.Serialize()
    ensures ParseLine(HeaderLine(CanvasSet(g))) == Ok(CanvasHeader(g.width, g.height))
  {
    HeaderLineSingle(CanvasSet(g));
    ParseHeaderLine(CanvasSet(g));
  }

  /** A line of cells, wherever it lies, fills a blank canvas of the right size with exactly those cells. */
  lemma CellsFill(g: Grid)
    requires RoundTrips(CanvasSet(g))
    ensures Insert(NewGrid(g.width, g.height), g.Serialize() + "\n") == Done(g, g.width * g.height)
  {
    InsertSerialized(g, "\n");
  }

  lemma DecodeLineAt(data: string, pos: nat, m: Message)
    requires RoundTrips(m) && !m.CanvasSet? && LiesAt(data, pos, Format(m))
    ensures pos + |Format(m)| <= |data| && Decode(data, pos) == Decoded(Ok(m), pos + |Format(m)|)
  {
    FormatLine(m);
    NextLineOf(data, pos, HeaderLine(m));
    DecodeComplete(data, pos, HeaderLine(m), pos + |Format(m)|, m);
  }

  lemma DecodeCanvasAt(data: string, pos: nat, g: Grid)
    requires RoundTrips(CanvasSet(g)) && LiesAt(data, pos, Format(CanvasSet(g)))
    ensures pos + |Format(CanvasSet(g))| <= |data|
    ensures Decode(data, pos) == Decoded(Ok(CanvasSet(g)), pos + |Format(CanvasSet(g))|)
  {
    var header, cells, f := HeaderLine(CanvasSet(g)), g.Serialize(), Format(CanvasSet(g));
    FormatCanvas(g);
    LiesAtHalves(data, pos, f, header + "\n", cells + "\n");
    var e, end := pos + |header| + 1, pos + |f|;
    assert end == e + |cells| + 1;
    NextLineOf(data, pos, header);
    NextLineOf(data, e, cells);
    CellsFill(g);
    DecodeCanvas(data, pos, header, e, cells, end, g, g.width * g.height);
  }

  /**
   * Round trip, one message: reading from where a written message lies in
   * the input gives the message back and stops exactly at its end, whatever
   * comes before and after it.
   */
  lemma DecodeAt(data: string, pos: nat, m: Message)
    requires RoundTrips(m) && LiesAt(data, pos, Format(m))
    ensures pos + |Format(m)| <= |data| && Decode(data, pos) == Decoded(Ok(m), pos + |Format(m)|)
  {
    match m
    case CanvasSet(g) => DecodeCanvasAt(data, pos, g);
    case _ => DecodeLineAt(data, pos, m);
  }

  /** `DecodeAt` with the text before and after the message spelled out. */
  lemma DecodeFormat(pre: string, m: Message, rest: string)
    requires RoundTrips(m)
    ensures Decode(pre + Format(m) + rest, |pre|) == Decoded(Ok(m), |pre| + |Format(m)|)
  {
    LiesAtMiddle(pre, Format(m), rest);
    DecodeAt(pre + Format(m) + rest, |pre|, m);
  }

  /** Where the `i`-th of the messages written from `pos` on starts. */
  function Start(pos: nat, ms: seq<Message>, i: nat): nat
    requires i <= |ms| && forall j :: 0 <= j < |ms| ==> WellFormed(ms[j])
  {
    pos + |Concat(Written(ms)[..i])|
  }

  /** The `i`-th `from_reader` call reads the `i`-th message back and stops where the next one starts. */
  ghost predicate ReadsNth(data: string, pos: nat, ms: seq<Message>, i: nat)
    requires i < |ms| && forall j :: 0 <= j < |ms| ==> WellFormed(ms[j])
  {
    && Start(pos, ms, i) <= Start(pos, ms, i + 1) <= |data|
    && Decode(data, Start(pos, ms, i)) == Decoded(Ok(ms[i]), Start(pos, ms, i + 1))
  }

  /** The next message starts right after the `i`-th. */
  lemma StartNext(pos: nat, ms: seq<Message>, i: nat)
    requires forall j :: 0 <= j < |ms| ==> WellFormed(ms[j])
    requires i < |ms|
    ensures Start(pos, ms, i + 1) == Start(pos, ms, i) + |Format(ms[i])|
  {
    ConcatSnoc(Written(ms), i);
  }

  /** The `i`-th written message lies in the input where it starts. */
  lemma NthLiesAt(data: string, pos: nat, ms: seq<Message>, i: nat)
    requires forall j :: 0 <= j < |ms| ==> WellFormed(ms[j])
    requires i < |ms| && LiesAt(data, pos, FormatAll(ms))
    ensures LiesAt(data, Start(pos, ms, i), Format(ms[i]))
  {
    LiesAtPart(data, pos, Written(ms), i);
  }

  lemma DecodeNth(data: string, pos: nat, ms: seq<Message>, i: nat)
    requires forall j :: 0 <= j < |ms| ==> WellFormed(ms[j]) && RoundTrips(ms[j])
    requires i < |ms| && LiesAt(data, pos, FormatAll(ms))
    ensures ReadsNth(data, pos, ms, i)
  {
    NthLiesAt(data, pos, ms, i);
    StartNext(pos, ms, i);
    DecodeAt(data, Start(pos, ms, i), ms[i]);
  }

  /**
   * Round trip, a stream: when messages written one after another lie in
   * the input from `pos` on, the `i`-th `from_reader` call starts where the
   * `i`-th message was written, reads it back, and stops where the next one
   * starts.
   */
  lemma DecodeFormatAll(data: string, pos: nat, ms: seq<Message>)
    requires forall i :: 0 <= i < |ms| ==> WellFormed(ms[i]) && RoundTrips(ms[i])
    requires LiesAt(data, pos, FormatAll(ms))
    ensures forall i :: 0 <= i < |ms| ==> ReadsNth(data, pos, ms, i)
  {
    forall i | 0 <= i < |ms| {
      DecodeNth(data, pos, ms, i);
    }
  }

  /** A read that hits the end of the input before a line feed is a format error holding what was read. */
  lemma DecodeWithoutLineFeed(data: string, pos: nat)
    requires pos <= |data| && '\n' !in data[pos..]
    ensures Decode(data, pos) == Decoded(Err(FormatError(data[pos..])), |data|)
  {
    NextLineAtEof(data, pos);
  }

  /** A line that is complete in itself decodes to what its first line says. */
  lemma DecodeLine(pre: string, line: string, rest: string)
    requires '\n' !in line
    requires ParseLine(line).Err? || ParseLine(line).value.Complete?
    ensures Decode(pre + line + "\n" + rest, |pre|) ==
      Decoded(
        match ParseLine(line)
        case Ok(h) => Ok(h.m)
        case Err(e) => Err(e),
        |pre| + |line| + 1)
  {
    var data := pre + line + "\n" + rest;
    Regroup(pre, line, "\n", rest);
    LiesAtMiddle(pre, line + "\n", rest);
    NextLineOf(data, |pre|, line);
  }
}

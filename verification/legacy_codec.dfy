/**
 * The older text wire codec of src/network.rs: `Message` with `SetChar` and
 * `CanvasUpdate`, its `Display`, and `Message::from_reader`, which reads one
 * line, splits it on ASCII whitespace, and for a canvas reads exactly
 * `width * height` bytes of UTF-8 after that line.
 */
module LegacyCodec {
  import opened Basics
  import opened Text
  import opened Versions
  import opened CanvasGrid
  import opened CanvasInsert
  import opened Input
  import CanvasObject

  datatype Message =
    | SetChar(x: usize, y: usize, c: char)
    | CanvasUpdate(canvas: Grid)
    | VersionReq(v: Version)
    | VersionAck
    | Quit

  /** Why a line was refused; the source turns each into an `io::Error` of kind `InvalidData`. */
  datatype ParseFailure =
    | NoContent
    | ArgCount(variant: string, found: nat)
    | InvalidValue(field: string)
    | BadVersion(error: ParseVersionError)
    | UnknownCommand
    | InvalidContents

  /** The `InvalidData` error: the reason and the line it was read from. */
  datatype ParseError = ParseError(failure: ParseFailure, line: string)

  /** What a line asks for: a whole message, or a canvas whose cells follow it. */
  datatype Header = Complete(m: Message) | CanvasHeader(width: usize, height: usize)

  /**
   * The outcome of one `from_reader` and where it leaves the cursor.
   * `Panicked` is the overflow of `width * height`; `PayloadMissing` is a
   * canvas whose cell bytes the input does not hold, where the source ignores
   * the failed `read_exact` and goes on with a buffer whose contents the model
   * does not say.
   */
  datatype Decoded = Decoded(result: Result<Message, ParseError>, next: nat) | Panicked | PayloadMissing

  /** The first words `from_reader` knows. */
  predicate KnownCommand(w: string) {
    w == "s" || w == "cs" || w == "v" || w == "vok" || w == "q"
  }

  /** A line that is not empty, split on ASCII whitespace and matched on its first word. */
  function ParseLine(line: string): (r: Result<Header, ParseFailure>)
    ensures r == Err(NoContent) <==> Tokens(line) == []
    ensures r == Err(UnknownCommand) <==> Tokens(line) != [] && !KnownCommand(Tokens(line)[0])
    ensures r.Ok? ==> KnownCommand(Tokens(line)[0])
    ensures r.Ok? && r.value.Complete? && r.value.m.SetChar? ==> !IsAsciiWhitespace(r.value.m.c)
  {
    var vals := Tokens(line);
    if |vals| == 0 then Err(NoContent)
    else if vals[0] == "s" then
      if |vals| != 4 then Err(ArgCount("SetChar", |vals|))
      else
        match ParseUnsigned(vals[1], UsizeMax)
        case None => Err(InvalidValue("y"))
        case Some(y) =>
          match ParseUnsigned(vals[2], UsizeMax)
          case None => Err(InvalidValue("x"))
          case Some(x) =>
            match ParseChar(vals[3])
            case None => Err(InvalidValue("c"))
            case Some(c) => Ok(Complete(SetChar(x, y, c)))
    else if vals[0] == "cs" then
      if |vals| != 3 then Err(ArgCount("CanvasUpdate", |vals|))
      else
        match ParseUnsigned(vals[1], UsizeMax)
        case None => Err(InvalidValue("height"))
        case Some(height) =>
          match ParseUnsigned(vals[2], UsizeMax)
          case None => Err(InvalidValue("width"))
          case Some(width) => Ok(CanvasHeader(width, height))
    else if vals[0] == "v" then
      if |vals| == 1 then Err(ArgCount("ProtocolVersionReq", |vals|))
      else
        match ParseVersion(vals[1])
        case Err(e) => Err(BadVersion(e))
        case Ok(v) => Ok(Complete(VersionReq(v)))
    else if vals[0] == "vok" then Ok(Complete(VersionAck))
    else if vals[0] == "q" then Ok(Complete(Quit))
    else Err(UnknownCommand)
  }

  /**
   * `Message::from_reader` from cursor `pos`: an empty read is `Quit`; a
   * canvas header is followed by exactly `width * height` bytes, which are
   * decoded as UTF-8 and inserted into a blank canvas of that size.
   */
  function Decode(data: string, pos: nat): (d: Decoded)
    requires pos <= |data|
    ensures d.Decoded? ==> pos <= d.next <= |data|
    ensures d.Decoded? && pos < |data| ==> pos < d.next
    ensures d.Decoded? && d.result.Ok? && d.result.value.SetChar? ==> !IsAsciiWhitespace(d.result.value.c)
  {
    var first := NextLine(data, pos);
    var line := first.Raw();
    if |line| == 0 then Decoded(Ok(Quit), first.end)
    else
      match ParseLine(line)
      case Err(f) => Decoded(Err(ParseError(f, line)), first.end)
      case Ok(Complete(m)) => Decoded(Ok(m), first.end)
      case Ok(CanvasHeader(width, height)) => ReadCells(data, first.end, width, height, line)
  }

  /**
   * The cells of a canvas message read from `at` on: `width * height` bytes,
   * which hold whole characters, inserted into a blank canvas of that size;
   * when the bytes stop inside a character, `String::from_utf8` refuses them
   * and the error names the header `line`.
   */
  function ReadCells(data: string, at: nat, width: usize, height: usize, line: string): (d: Decoded)
    requires at <= |data|
    ensures d.Decoded? ==> at <= d.next <= |data|
    ensures d.Decoded? && d.result.Ok? ==>
      d.result.value.CanvasUpdate? && ByteLen(data[at..d.next]) == width * height
    ensures d.Decoded? && d.result.Err? ==>
      && d.result.error == ParseError(InvalidContents, line)
      && at < d.next
      && ByteLen(data[at..d.next - 1]) < width * height < ByteLen(data[at..d.next])
    ensures d == PayloadMissing ==> ByteLen(data[at..]) < width * height
  {
    if width * height > UsizeMax then Panicked
    else
      TakeBytesLength(data, at, width * height);
      match TakeBytes(data, at, width * height)
      case Short => PayloadMissing
      case MidCharacter(end) => Decoded(Err(ParseError(InvalidContents, line)), end)
      case Whole(end) =>
        match Insert(NewGrid(width, height), data[at..end])
        case Done(g, _) => Decoded(Ok(CanvasUpdate(g)), end)
        case SetOutOfBounds => Panicked
  }

  /** `from_reader` on the reader object: the same outcome as `Decode`, and the reader advanced to its cursor. */
  method FromReader(source: Reader) returns (r: Result<Message, ParseError>)
    requires source.Valid() && Decode(source.data, source.pos).Decoded?
    modifies source
    ensures source.Valid() && Decode(source.data, old(source.pos)) == Decoded(r, source.pos)
  {
    var line := source.ReadLine();
    if |line| == 0 {
      return Ok(Quit);
    }
    var header := ParseLine(line);
    match header {
      case Err(f) =>
        r := Err(ParseError(f, line));
      case Ok(Complete(m)) =>
        r := Ok(m);
      case Ok(CanvasHeader(width, height)) =>
        r := ReadCanvas(source, width, height, line);
    }
  }

  /**
   * The canvas part of `from_reader`: a new canvas, `read_exact` of
   * `width * height` bytes, their decoding as UTF-8, and `insert`.
   */
  method ReadCanvas(source: Reader, width: usize, height: usize, line: string) returns (r: Result<Message, ParseError>)
    requires source.Valid() && ReadCells(source.data, source.pos, width, height, line).Decoded?
    modifies source
    ensures source.Valid() && ReadCells(source.data, old(source.pos), width, height, line) == Decoded(r, source.pos)
  {
    var canvas := new CanvasObject.Canvas(width, height);
    var buf, read := source.ReadExact(width * height);
    if read.MidCharacter? {
      return Err(ParseError(InvalidContents, line));
    }
    var _ := canvas.Insert(buf);
    r := Ok(CanvasUpdate(canvas.Value()));
  }

  // ---------------------------------------------------------------------------
  // Display

  /** A message the wire format can carry: a canvas of valid shape whose sizes and cell count are `usize`. */
  predicate WellFormed(m: Message) {
    m.CanvasUpdate? ==>
      && m.canvas.Valid()
      && m.canvas.width <= UsizeMax && m.canvas.height <= UsizeMax
      && m.canvas.width * m.canvas.height <= UsizeMax
  }

  /** The words `Display` writes on the first line, in order. */
  function HeaderWords(m: Message): (ws: seq<string>)
    ensures |ws| >= 1
  {
    match m
    case SetChar(x, y, c) => ["s", NatToString(y), NatToString(x), [c]]
    case CanvasUpdate(g) => ["cs", NatToString(g.height), NatToString(g.width)]
    case VersionReq(v) => ["v", FormatVersion(v)]
    case VersionAck => ["vok"]
    case Quit => ["q"]
  }

  /**
   * `Display for Message`: the words separated by single spaces and a line
   * feed; a canvas header also has a space before its line feed, and is
   * followed by the cells and another line feed.
   */
  function Format(m: Message): (s: string)
    requires WellFormed(m)
    ensures |s| > 0 && s[|s| - 1] == '\n'
  {
    match m
    case CanvasUpdate(g) => Join(HeaderWords(m), ' ') + " \n" + g.Serialize() + "\n"
    case _ => Join(HeaderWords(m), ' ') + "\n"
  }

  /** What `Display` writes for each message, message by message. */
  function Written(ms: seq<Message>): (fs: seq<string>)
    requires forall i :: 0 <= i < |ms| ==> WellFormed(ms[i])
    ensures |fs| == |ms| && forall i :: 0 <= i < |ms| ==> fs[i] == Format(ms[i])
    decreases |ms|
  {
    if |ms| == 0 then [] else [Format(ms[0])] + Written(ms[1..])
  }

  /** The messages one after another on the wire. */
  function FormatAll(ms: seq<Message>): string
    requires forall i :: 0 <= i < |ms| ==> WellFormed(ms[i])
  {
    Concat(Written(ms))
  }

  // ---------------------------------------------------------------------------
  // The canvas message's line feed

  /**
   * `from_reader` as it evidently should be: after the cells of a canvas,
   * the line feed `Display` writes after them is consumed too, so the next
   * call starts at the next message.
   */
  function DecodeFixed(data: string, pos: nat): (d: Decoded)
    requires pos <= |data|
    ensures d.Decoded? ==> pos <= d.next <= |data|
  {
    match Decode(data, pos)
    case Decoded(Ok(CanvasUpdate(g)), n) =>
      Decoded(Ok(CanvasUpdate(g)), if n < |data| && data[n] == '\n' then n + 1 else n)
    case d => d
  }
}

/**
 * The current text wire codec of src/network/message.rs: `Message`, its
 * `Display` (the wire format) and `Message::from_reader`, which reads one
 * line, splits it on single spaces, and for a canvas reads the cells from
 * the next line.
 */
module Codec {
  import opened Basics
  import opened Text
  import opened Versions
  import opened CanvasGrid
  import opened CanvasInsert
  import opened Input
  import CanvasObject

  datatype Message =
    | CharSet(x: usize, y: usize, c: char)
    | CanvasSet(canvas: Grid)
    | VersionReq(v: Version)
    | VersionAck
    | Quit

  /** `ParseMessageError` without its `Io` variant: reading from the model's input cannot fail. */
  datatype ParseMessageError =
    | ParamCount(msg: string, exp: nat, found: nat)
    | InvalidParam(msg: string, param: string, val: string)
    | FormatError(line: string)
    | UnknownPrefix(prefix: string)

  /** What a first line asks for: a whole message, or a canvas whose cells are on the next line. */
  datatype Header = Complete(m: Message) | CanvasHeader(width: usize, height: usize)

  /** The outcome of one `from_reader` and where it leaves the cursor; `Panicked` is the canvas insertion's panic. */
  datatype Decoded = Decoded(result: Result<Message, ParseMessageError>, next: nat) | Panicked

  /** A character a `CharSet` can carry: anything but ASCII whitespace other than the space. */
  predicate CellChar(c: char) {
    c == ' ' || !IsAsciiWhitespace(c)
  }

  /**
   * The character parameter of `"s"`: two empty pieces stand for a space
   * (the space itself separated them), one piece alone is the character,
   * and a third piece after the character is refused.
   */
  function CharParam(params: seq<string>): (r: Result<char, ParseMessageError>)
    requires |params| >= 3
    ensures r.Ok? ==> CellChar(r.value)
  {
    var text :=
      if params[2] == "" && |params| > 3 && params[3] == "" then Ok(" ")
      else if |params| == 3 then Ok(params[2])
      else Err(InvalidParam("Charset", "c", params[2] + " " + params[3]));
    match text
    case Err(e) => Err(e)
    case Ok(t) =>
      match ParseChar(t)
      case None => Err(InvalidParam("Charset", "c", params[2]))
      case Some(c) =>
        if c != ' ' && IsAsciiWhitespace(c) then Err(InvalidParam("Charset", "c", params[2]))
        else Ok(c)
  }

  /** The prefixes `from_reader` knows. */
  predicate KnownPrefix(p: string) {
    p == "s" || p == "cs" || p == "v" || p == "vok" || p == "q"
  }

  /** The first line, without its line feed, split on single spaces into a prefix and parameters. */
  function ParseLine(line: string): (r: Result<Header, ParseMessageError>)
    ensures r.Ok? ==> KnownPrefix(Split(line, ' ')[0])
    ensures r.Err? && r.error.UnknownPrefix? <==> !KnownPrefix(Split(line, ' ')[0])
    ensures r.Ok? && r.value.Complete? && r.value.m.CharSet? ==> CellChar(r.value.m.c)
    ensures r.Ok? && r.value.CanvasHeader? ==> Split(line, ' ')[0] == "cs"
  {
    var vals := Split(line, ' ');
    var prefix := vals[0];
    var params := vals[1..];
    if prefix == "s" then
      if |params| < 3 then Err(ParamCount("Charset", 3, |params|))
      else
        match ParseUnsigned(params[0], UsizeMax)
        case None => Err(InvalidParam("Charset", "y", params[0]))
        case Some(y) =>
          match ParseUnsigned(params[1], UsizeMax)
          case None => Err(InvalidParam("Charset", "x", params[1]))
          case Some(x) =>
            match CharParam(params)
            case Err(e) => Err(e)
            case Ok(c) => Ok(Complete(CharSet(x, y, c)))
    else if prefix == "cs" then
      if |params| != 2 then Err(ParamCount("CanvasSet", 2, |params|))
      else
        match ParseUnsigned(params[0], UsizeMax)
        case None => Err(InvalidParam("CanvasSet", "height", params[0]))
        case Some(height) =>
          match ParseUnsigned(params[1], UsizeMax)
          case None => Err(InvalidParam("CanvasSet", "width", params[1]))
          case Some(width) => Ok(CanvasHeader(width, height))
    else if prefix == "v" then
      if |params| < 1 then Err(ParamCount("VersionReq", 1, |params|))
      else
        match ParseVersion(params[0])
        case Err(_) => Err(InvalidParam("VersionReq", "version", params[0]))
        case Ok(v) => Ok(Complete(VersionReq(v)))
    else if prefix == "vok" then Ok(Complete(VersionAck))
    else if prefix == "q" then Ok(Complete(Quit))
    else Err(UnknownPrefix(prefix))
  }

  /**
   * `Message::from_reader` from cursor `pos`: one line, which must end in a
   * line feed; for a canvas header, the next line holds the cells and is
   * inserted into a blank canvas of the announced size (surplus text is
   * dropped by the insertion).
   */
  function Decode(data: string, pos: nat): (d: Decoded)
    requires pos <= |data|
    ensures d.Decoded? ==> pos <= d.next <= |data|
    ensures d.Decoded? && pos < |data| ==> pos < d.next
    ensures d.Decoded? && d.result.Ok? && d.result.value.CharSet? ==> CellChar(d.result.value.c)
  {
    var first := NextLine(data, pos);
    if !first.terminated then Decoded(Err(FormatError(first.text)), first.end)
    else
      match ParseLine(first.text)
      case Err(err) => Decoded(Err(err), first.end)
      case Ok(Complete(m)) => Decoded(Ok(m), first.end)
      case Ok(CanvasHeader(width, height)) =>
        var second := NextLine(data, first.end);
        match Insert(NewGrid(width, height), second.Raw())
        case Done(g, _) => Decoded(Ok(CanvasSet(g)), second.end)
        case SetOutOfBounds => Panicked
  }

  /** `from_reader` on the reader object: the same outcome as `Decode`, and the reader advanced to its cursor. */
  method FromReader(source: Reader) returns (r: Result<Message, ParseMessageError>)
    requires source.Valid() && !Decode(source.data, source.pos).Panicked?
    modifies source
    ensures source.Valid() && Decode(source.data, old(source.pos)) == Decoded(r, source.pos)
  {
    var line := source.ReadLine();
    if |line| == 0 || line[|line| - 1] != '\n' {
      return Err(FormatError(line));
    }
    NextLineRead(source.data, old(source.pos));
    assert line[..|line| - 1] == NextLine(source.data, old(source.pos)).text;
    var header := ParseLine(line[..|line| - 1]);
    match header {
      case Err(err) =>
        r := Err(err);
      case Ok(Complete(m)) =>
        r := Ok(m);
      case Ok(CanvasHeader(width, height)) =>
        var canvas := new CanvasObject.Canvas(width, height);
        var buf := source.ReadLine();
        var _ := canvas.Insert(buf);
        r := Ok(CanvasSet(canvas.Value()));
    }
  }

  // ---------------------------------------------------------------------------
  // Display

  /** A message the wire format can carry: a canvas of valid shape whose sizes are `usize`. */
  predicate WellFormed(m: Message) {
    m.CanvasSet? ==> m.canvas.Valid() && m.canvas.width <= UsizeMax && m.canvas.height <= UsizeMax
  }

  /** The fields `Display` writes on the first line, in order. */
  function HeaderFields(m: Message): (fs: seq<string>)
    ensures |fs| >= 1
  {
    match m
    case CharSet(x, y, c) => ["s", NatToString(y), NatToString(x), [c]]
    case CanvasSet(g) => ["cs", NatToString(g.height), NatToString(g.width)]
    case VersionReq(v) => ["v", FormatVersion(v)]
    case VersionAck => ["vok"]
    case Quit => ["q"]
  }

  /** The first line of a message, without its line feed: the fields separated by single spaces. */
  function HeaderLine(m: Message): string {
    Join(HeaderFields(m), ' ')
  }

  /** `Display for Message`: the first line, and for a canvas its cells as a second line. */
  function Format(m: Message): (s: string)
    requires WellFormed(m)
    ensures |s| > 0 && s[|s| - 1] == '\n'
  {
    match m
    case CanvasSet(g) => HeaderLine(m) + "\n" + g.Serialize() + "\n"
    case _ => HeaderLine(m) + "\n"
  }

  /** What `Display` writes for each message, message by message. */
  function Written(ms: seq<Message>): (fs: seq<string>)
    requires forall i :: 0 <= i < |ms| ==> WellFormed(ms[i])
    ensures |fs| == |ms| && forall i :: 0 <= i < |ms| ==> fs[i] == Format(ms[i])
    decreases |ms|
  {
    if |ms| == 0 then [] else [Format(ms[0])] + Written(ms[1..])
  }

  /** The messages one after another on the wire. */
  function FormatAll(ms: seq<Message>): string
    requires forall i :: 0 <= i < |ms| ==> WellFormed(ms[i])
  {
    Concat(Written(ms))
  }
}

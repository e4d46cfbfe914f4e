/**
 * The client side of the handshake in src/network/protocol.rs, over the older
 * codec of src/network.rs. The connection is the sequence of what its
 * successive `Message::from_reader` calls return and the list of messages
 * written to it; every `unwrap` and `panic!()` of the source is an aborted
 * outcome.
 */
module ClientProtocol {
  import opened Basics
  import opened Versions
  import opened CanvasGrid
  import opened LegacyCodec
  import opened Input
  import LegacyCodecProperties

  /** A call that returns its value, or panics. */
  datatype Outcome<T> = Returned(value: T) | Aborted

  /** What the handshake makes of the two replies: the canvas after an acknowledgement, or a panic. */
  function Handshake(first: Result<Message, ParseError>, second: Result<Message, ParseError>): (r: Outcome<Grid>)
  {
    if first != Ok(VersionAck) then Aborted
    else
      match second
      case Ok(CanvasUpdate(g)) => Returned(g)
      case _ => Aborted
  }

  /** What `check_for_update` makes of one read: the cell a `SetChar` names, or a panic. */
  function Update(read: Result<Message, ParseError>): (r: Outcome<(usize, usize, char)>)
  {
    match read
    case Ok(SetChar(x, y, c)) => Returned((x, y, c))
    case _ => Aborted
  }

  /** A connection as the `Client` trait sees it. */
  class Connection {
    /** What the successive reads return; past the end, the input is exhausted and the older codec reads `Quit`. */
    const replies: seq<Result<Message, ParseError>>
    /** How many reads have been made. */
    var next: nat
    /** The messages written so far, in order. */
    var sent: seq<Message>

    constructor (replies: seq<Result<Message, ParseError>>)
      ensures this.replies == replies && next == 0 && sent == []
    {
      this.replies := replies;
      next := 0;
      sent := [];
    }

    function Received(i: nat): Result<Message, ParseError>
      reads this
    {
      if i < |replies| then replies[i] else Ok(Quit)
    }

    /**
     * `init_connection`: asks for protocol version 1.0, then expects the
     * acknowledgement and the canvas, in that order.
     */
    method InitConnection() returns (r: Outcome<Grid>)
      modifies this
      ensures sent == old(sent) + [VersionReq(ProtocolVersion)]
      ensures r == Handshake(Received(old(next)), Received(old(next) + 1))
      ensures next == old(next) + if Received(old(next)) == Ok(VersionAck) then 2 else 1
    {
      sent := sent + [VersionReq(ProtocolVersion)];
      var m := Received(next);
      next := next + 1;
      if m != Ok(VersionAck) {
        return Aborted;
      }
      m := Received(next);
      next := next + 1;
      match m {
        case Ok(CanvasUpdate(g)) =>
          r := Returned(g);
        case _ =>
          r := Aborted;
      }
    }

    /** `send_char_update`: writes the `SetChar`; nothing is read. */
    method SendCharUpdate(x: usize, y: usize, c: char)
      modifies this
      ensures sent == old(sent) + [SetChar(x, y, c)] && next == old(next)
    {
      sent := sent + [SetChar(x, y, c)];
    }

    /** `check_for_update`: reads one message, which has to be a `SetChar`. */
    method CheckForUpdate() returns (r: Outcome<(usize, usize, char)>)
      modifies this
      ensures r == Update(Received(old(next))) && next == old(next) + 1 && sent == old(sent)
    {
      var m := Received(next);
      next := next + 1;
      match m {
        case Ok(SetChar(x, y, c)) =>
          r := Returned((x, y, c));
        case _ =>
          r := Aborted;
      }
    }
  }

  /** The handshake succeeds exactly on an acknowledgement followed by a canvas, and yields that canvas. */
  lemma HandshakeSucceeds(first: Result<Message, ParseError>, second: Result<Message, ParseError>, g: Grid)
    ensures Handshake(first, second) == Returned(g) <==> first == Ok(VersionAck) && second == Ok(CanvasUpdate(g))
  {
  }

  /** An update is returned exactly for a `SetChar`, with its coordinates and character. */
  lemma UpdateSucceeds(read: Result<Message, ParseError>, x: usize, y: usize, c: char)
    ensures Update(read) == Returned((x, y, c)) <==> read == Ok(SetChar(x, y, c))
  {
  }

  /**
   * A server that writes, with `Display`, the acknowledgement and a canvas
   * of ASCII cells completes this client's handshake; but whatever it writes
   * next (a `SetChar`, say), the client's first `check_for_update` reads the
   * line feed left after the canvas as an empty line and panics.
   */
  lemma FirstUpdateAfterCanvasPanics(data: string, ack: string, canvas: string, g: Grid, rest: string)
    requires data == ack + canvas + rest
    requires LegacyCodecProperties.RoundTrips(CanvasUpdate(g))
    requires ack == Format(VersionAck) && canvas == Format(CanvasUpdate(g))
    ensures var n2 := |ack| + |canvas| - 1;
      && Decode(data, 0) == Decoded(Ok(VersionAck), |ack|)
      && Decode(data, |ack|) == Decoded(Ok(CanvasUpdate(g)), n2)
      && Decode(data, n2) == Decoded(Err(ParseError(NoContent, "\n")), n2 + 1)
      && Handshake(Decode(data, 0).result, Decode(data, |ack|).result) == Returned(g)
      && Update(Decode(data, n2).result) == Aborted
  {
    AckFirst(data, ack, canvas + rest);
    CanvasSecond(data, ack, canvas, g, rest);
    LeftoverThird(data, ack, canvas, rest);
  }

  /** The acknowledgement at the start of the input reads back whole. */
  lemma AckFirst(data: string, ack: string, rest: string)
    requires ack == Format(VersionAck) && data == ack + rest
    ensures Decode(data, 0) == Decoded(Ok(VersionAck), |ack|)
  {
    assert data == "" + ack + rest;
    LiesAtMiddle("", ack, rest);
    LegacyCodecProperties.DecodeLineAt(data, 0, VersionAck);
  }

  /** The canvas after it reads back, without its final line feed. */
  lemma CanvasSecond(data: string, ack: string, canvas: string, g: Grid, rest: string)
    requires LegacyCodecProperties.RoundTrips(CanvasUpdate(g))
    requires canvas == Format(CanvasUpdate(g)) && data == ack + canvas + rest
    ensures Decode(data, |ack|) == Decoded(Ok(CanvasUpdate(g)), |ack| + |canvas| - 1)
  {
    LiesAtMiddle(ack, canvas, rest);
    LegacyCodecProperties.DecodeCanvasAt(data, |ack|, g);
  }

  /** The line feed that ends what `Display` wrote is read as an empty line. */
  lemma LeftoverThird(data: string, ack: string, canvas: string, rest: string)
    requires |canvas| > 0 && canvas[|canvas| - 1] == '\n' && data == ack + canvas + rest
    ensures Decode(data, |ack| + |canvas| - 1) == Decoded(Err(ParseError(NoContent, "\n")), |ack| + |canvas|)
  {
    assert data[|ack| + |canvas| - 1] == canvas[|canvas| - 1];
    LegacyCodecProperties.DecodeLeftover(data, |ack| + |canvas| - 1);
  }
}

# collascii-rs in Dafny

collascii-rs is a collaborative ASCII-art editor. A server holds a shared canvas of
characters, and clients connected over TCP change single cells; the server forwards
each change to the other clients. This project models the core of that system and
proves properties of the model:

- **The canvas** (src/canvas.rs). It is a fixed `width x height` grid of characters.
  `CanvasGrid.Grid` is the value a clone carries, and `CanvasObject.Canvas` is the
  object that `set` and `insert` update in place. `CanvasInsert` specifies
  `insert`: newlines start the next row, full rows wrap, and the insertion stops
  below the last row. `CanvasText` covers `From<&str>`, `as_str` and `Display`.
- **The current wire codec** (src/network/message.rs), in `Codec`. It covers
  `Message`, its `Display` and `Message::from_reader`, which reads one line and
  splits it on single spaces. A canvas carries its cells on a second line.
- **The older wire codec** (src/network.rs), in `LegacyCodec`. It splits on ASCII
  whitespace and reads exactly `width * height` bytes of canvas cells, which must
  hold whole UTF-8 characters.
- **The client handshake** (src/network/protocol.rs), in `ClientProtocol`.
- **The threaded server of src/bin/server.rs**, in `Server`. It covers the client
  registry `Clients` and `handle_stream`: the version check, the canvas reply, and
  the main loop that applies and forwards `CharSet`s.
- **The cursor-sharing server of examples/server.rs**, in `CollabServer`. It covers
  its registry of `ClientInfo`s and the handler's `on_char_update` and
  `on_pos_update`.
- **An Ascii Place** (examples/an-ascii-place.rs), in `Place`. It covers the
  per-client cooldown, the canvas keeper thread and the connection manager.

Sockets are modelled as outboxes: a string, or a sequence of messages, that writes
append to. A reader is the whole text it will ever deliver plus a cursor, and a
connection's successive reads are a sequence of read outcomes. Panics are explicit
outcomes (`Panicked`, `Crashed`, `Aborted`, `None`, `SetOutOfBounds`) wherever the
source panics on input it does not control. The `debug_assert!`s on canvas
coordinates are preconditions. `usize` is 64 bits wide.

Several things the source only implies are proved as properties, each round trip
on the domain where it holds:
- `from_reader(Display(m)) == m` in the current codec, one message and a whole
  stream, for a `CharSet` whose character is a cell character and a canvas whose
  cells hold no line feed (`CodecProperties.RoundTrips`); a tab does not read back
  (`CodecExamples.TabCharacter`);
- in the older codec, a single message other than a canvas reads back when a
  `SetChar`'s character is not whitespace (`LegacyCodecProperties.RoundTrips`); a canvas
  of ASCII cells without line feeds reads back but leaves its final line feed
  unread, so a written stream does not read back as written
  (`LegacyCodecProperties.CanvasThenQuitBreaks`, see "## Findings"); the stream
  round trip is proved for the corrected reader only
  (`LegacyCodecProperties.DecodeFixedFormatAll`);
- `from(as_str(c)) == c` for a canvas with at least one row whose rows hold
  plain ASCII characters other than line feeds and carriage returns (a 5x0
  canvas comes back as 0x0);
- `insert(serialize(c)) == c` for a canvas whose cells hold no line feed;
- the cooldown spacing of An Ascii Place;
- what each client's stream receives from the servers.

## Model

| member | source | states |
|---|---|---|
| CanvasGrid.NewGrid | src/canvas.rs:14-27 | `Canvas::new` has the requested size and every cell is a space |
| CanvasGrid.Grid.Set | src/canvas.rs:79-87 | `set` on a cell inside the canvas keeps the size, stores `c` at `(x, y)` and leaves every other cell unchanged |
| CanvasGrid.Grid.SetI | src/canvas.rs:89-98 | `seti` as written keeps the size, `geti(i)` then reads back `c`, and every cell other than the one `i_to_xy(i)` names keeps its character |
| CanvasGrid.Grid.RowMajorXy | src/canvas.rs:108-112 | the corrected `i_to_xy`: the column is below the width and `y * width + x == i` |
| CanvasGrid.RowMajorXyInverts | src/canvas.rs:108-112 | the corrected mapping takes `y * width + x` back to `(x, y)` |
| CanvasGrid.IToXyIsRowMajorIffSquare | src/canvas.rs:108-112 | `i_to_xy` as written agrees with the row-major inverse on every index when the canvas is square, and differs at some in-bounds index otherwise |
| CanvasGrid.IToXyWrongOnThreeByTwo | src/canvas.rs:108-112 | on a 3x2 canvas, index 2 maps to `(0, 0)` instead of `(2, 0)`, so `seti(2, 'X')` writes the wrong cell |
| CanvasGrid.GetIOnSquare | src/canvas.rs:57-66 | on a square canvas `geti(y * width + x)` is `get(x, y)` |
| CanvasGrid.Grid.Serialize | src/canvas.rs:118-126 | `serialize` yields exactly `width * height` characters |
| CanvasGrid.SerializeAt | src/canvas.rs:118-126 | character `y * width + x` of `serialize` is the cell `(x, y)`: row by row, left to right |
| CanvasGrid.SerializeSet | src/canvas.rs:118-126 | after `set(x, y, c)` the serialization differs from the old one only at `y * width + x`, which is `c` |
| CanvasGrid.SerializeNew | src/canvas.rs:14-27 | a new canvas serializes to spaces only |
| CanvasGrid.SerializeInjective | src/canvas.rs:114-117 | two canvases of the same size with the same serialization are equal, so the serialization can be inserted back |
| CanvasInsert.InsertFrom | src/canvas.rs:173-213 | the insertion loop keeps the size and counts between `placed` and `placed + len(s)` characters placed |
| CanvasInsert.InsertNewlines | src/canvas.rs:186-190 | newlines alone change no cell and place nothing |
| CanvasInsert.InsertBound | src/canvas.rs:216-218 | `insert` never reports more than `width * height` characters placed |
| CanvasInsert.InsertZeroWidth | src/canvas.rs:192-208 | on a zero-width canvas, `insert` panics exactly when some character is not a line feed and the row it wraps to is inside the canvas; otherwise it changes nothing |
| CanvasInsert.InsertFromTotal | src/canvas.rs:173-213 | with a positive width, or no rows, the insertion never panics |
| CanvasInsert.WrapCursor | src/canvas.rs:191-195 | a character at the end of a row goes to the start of the next row |
| CanvasInsert.InsertPlaces | src/canvas.rs:208-210 | a character at an in-bounds cursor is set there, and the cursor and the count advance by one |
| CanvasInsert.InsertFlat | src/canvas.rs:216-218 | text without newlines fills the cells in row-major order: `min(len, width * height)` placed, and the serialization is the old one overwritten from the start by the text |
| CanvasInsert.InsertSerialized | src/canvas.rs:114-117 | for a canvas whose cells hold no line feed, inserting its serialization (and trailing newlines) into a new canvas of its size gives that canvas back, with every cell placed |
| CanvasInsert.InsertExampleSmall | src/canvas.rs:296-301 | "ABCDEFGH" into 2x2 places 4, and the cells are A B / C D |
| CanvasInsert.InsertExampleLarge | src/canvas.rs:303-308 | "ABCDEFGH" into 3x3 places 8, with A, C, H and a space at the tested cells |
| CanvasInsert.InsertExampleJustRight | src/canvas.rs:310-315 | "ABCDEFGH" into 4x2 places 8, with A, C and H at the tested cells |
| CanvasObject.Canvas.constructor | src/canvas.rs:14-27 | the rows built are the new canvas of the requested size |
| CanvasObject.Canvas.Set | src/canvas.rs:79-87 | the in-place update leaves the canvas equal to `Grid.Set` of the old one |
| CanvasObject.Canvas.SetI | src/canvas.rs:89-98 | the in-place update through `i_to_xy` leaves the canvas equal to `Grid.SetI` of the old one |
| CanvasObject.Canvas.Serialize | src/canvas.rs:118-126 | the two nested loops build exactly `Grid.Serialize` of the canvas |
| CanvasObject.Canvas.Insert | src/canvas.rs:173-218 | the loop leaves the canvas and the count that `CanvasInsert.Insert` specifies |
| CanvasObject.Canvas.AsStr | src/canvas.rs:264-273 | the loops build every row followed by a line feed |
| CanvasObject.Canvas.Display | src/canvas.rs:129-142 | the loops build the rows joined by line feeds, with none after the last |
| CanvasObject.FromText | src/canvas.rs:244-260 | the canvas built and filled is the one `CanvasText.FromStr` specifies |
| CanvasText.MaxLen | src/canvas.rs:251-253 | the width fold is at least the byte length of every line, and it is 0 or the length of one of them |
| CanvasText.Lines | src/canvas.rs:251 | no line that `str::lines` yields contains a line feed |
| Text.ByteLen | src/canvas.rs:251-253 | the UTF-8 length the width is measured in is at least the number of characters |
| Text.Utf8Len | src/canvas.rs:251-253 | a character takes 1 to 4 bytes, and 1 exactly when it is ASCII |
| CanvasText.LinesPlain | src/canvas.rs:251 | without carriage returns, `str::lines` gives the pieces between line feeds, less a final empty piece |
| CanvasText.FromStr | src/canvas.rs:249-259 | when the insertion does not panic, the canvas is as wide as the longest line and has one row per line |
| CanvasText.FromStrLayout | src/canvas.rs:244-259 | without carriage returns, `Canvas::from(s)` is the lines of `s`, each padded with spaces to the width |
| CanvasText.FromStrGet | src/canvas.rs:244-259 | cell `(x, y)` of `Canvas::from(s)` is character `x` of line `y`, or a space past its end |
| CanvasText.FromStrOneLine | src/canvas.rs:319-325 | "foobarflyer" gives an 11x1 canvas holding that line |
| CanvasText.FromStrLines | src/canvas.rs:327-334 | "foo\nbarfly\n\ner\n" gives a 6x4 canvas, with a blank row for the empty line |
| CanvasText.FromStrCarriageReturnPanics | src/canvas.rs:249-258 | "\r\n\r\n" has two empty lines, so the canvas is 0x2 and inserting the carriage return panics |
| CanvasText.AsStrIsDisplayLine | src/canvas.rs:129-142 | on a canvas with rows, `as_str` is `Display` followed by one line feed |
| CanvasText.LinesOfAsStr | src/canvas.rs:264-273 | the lines of `as_str` are the rows, for rows of plain ASCII characters |
| CanvasText.FromStrAsStr | src/canvas.rs:244-273 | round trip: `Canvas::from(as_str(c)) == c` for a canvas with at least one row whose cells are plain ASCII characters, neither line feeds nor carriage returns |
| CanvasText.InsertFooBar | src/canvas.rs:339-340 | "foobar" into 2x4 places 6 and leaves the rows "fo", "ob", "ar", "  " |
| CanvasText.AsStrExample | src/canvas.rs:337-343 | that canvas's `as_str` is "fo\nob\nar\n  \n" |
| Text.Split | src/network/message.rs:221 | `split(' ')` yields at least one piece, and no piece holds the separator |
| Text.JoinSplit | src/network/message.rs:221 | joining the pieces of `split` with the separator gives the text back |
| Text.SplitJoin | src/network/message.rs:221 | splitting pieces joined by a separator they do not contain gives the pieces back |
| Text.Tokens | src/network.rs:130 | every piece of `split_ascii_whitespace` is a non-empty word without ASCII whitespace |
| Text.TokensJoin | src/network.rs:130 | words joined by single spaces, followed by whitespace, split back into those words |
| Text.ParseChar | src/network.rs:151-153 | `char::from_str` succeeds exactly on one-character text, and gives that character |
| Text.ParseUnsigned | src/network/message.rs:240-249 | a parsed `usize` never exceeds its maximum |
| Text.NatToString | src/network/message.rs:345 | the decimal form of a number is a non-empty string of digits |
| Text.ParseUnsignedOfNatToString | src/network.rs:145-150 | parsing the decimal form of `n <= max` gives `n` back |
| Versions.ParseVersion | src/network/message.rs:50-62 | a version parses only from exactly two dot-separated pieces; `NoMinor` exactly when there is no dot |
| Versions.ParseFormatVersion | src/network/message.rs:65-69 | parsing what `Display` writes for a version gives the version back |
| Versions.ParseVersionNeverNoMajor | src/network/message.rs:53 | `NoMajor` is never returned, since `split` always yields a first piece |
| Versions.ParseVersionGood | src/network/message.rs:29 | "1.2" parses to 1.2 |
| Versions.ParseVersionMissingMinor | src/network/message.rs:30-32 | "1" and "foo" fail with `NoMinor` |
| Versions.ParseVersionEmptyMajor | src/network/message.rs:31 | ".1" fails on its empty major |
| Versions.ParseVersionExtra | src/network/message.rs:55-57 | "1.0.3" fails with `ExtraStuff("3")` |
| Input.NextLine | src/network/message.rs:214 | `read_line` moves the cursor forward, by at least one character while input remains; a line ends unterminated only at the end of the input |
| Input.NextLineRead | src/network/message.rs:214 | the line's text holds no line feed, and what is read is exactly the input between the old and the new cursor |
| Input.NextLineOf | src/network/message.rs:214 | a line feed-free text followed by a line feed is read whole, and the cursor stops after the line feed |
| Input.NextLineAtEof | src/network/message.rs:214-217 | text without a line feed up to the end is read whole and unterminated |
| Input.ScanLine | src/network/message.rs:214 | the scan stops just past the next line feed, or at the end of the input, and the text it passes is the line read |
| Input.Reader.ReadLine | src/network/message.rs:214 | the reader returns the line `NextLine` specifies and advances to its end |
| Input.TakeBytes | src/network.rs:173-174 | taking `n` bytes from a cursor stays within the input, and a cut inside a character moves past that character |
| Input.TakeBytesLength | src/network.rs:173-174 | the characters taken hold exactly `n` bytes; a cut inside a character falls strictly inside its bytes; too short an input holds fewer than `n` bytes |
| Input.TakeBytesAscii | src/network.rs:173-174 | `n` ASCII characters are exactly `n` bytes |
| Input.ScanBytes | src/network.rs:173-174 | the byte-counting loop stops where `TakeBytes` says |
| Input.Reader.ReadExact | src/network.rs:173-174 | `read_exact` takes the characters that the next `n` bytes encode, returns them and advances past them |
| Codec.CharParam | src/network/message.rs:250-273 | a character parameter that parses is a cell character: not ASCII whitespace other than the space |
| Codec.ParseLine | src/network/message.rs:221-331 | a first line parses only with a known prefix, fails with `UnknownPrefix` exactly when its prefix is unknown, and announces a canvas only with the prefix "cs" |
| Codec.Decode | src/network/message.rs:207-306 | when `from_reader` does not panic, it moves the cursor forward within the input, and a `CharSet` read carries a cell character |
| Codec.FromReader | src/network/message.rs:207-332 | on the reader object, the result and the new cursor are those of `Decode` |
| Codec.Format | src/network/message.rs:341-353 | every message written ends in a line feed |
| CodecProperties.ParseCharSetLine | src/network/message.rs:229-275 | the first line written for a `CharSet` parses back to it, the space character included |
| CodecProperties.ParseCanvasSetLine | src/network/message.rs:277-296 | the "cs height width" line written for a canvas announces that canvas's width and height |
| CodecProperties.ParseVersionReqLine | src/network/message.rs:307-325 | the line written for a `VersionReq` parses back to it |
| CodecProperties.ParseHeaderLine | src/network/message.rs:227-331 | the first line written for any message parses back to it, or for a canvas to its size |
| CodecProperties.DecodeComplete | src/network/message.rs:213-226 | a terminated line that parses to a complete message is read as that message, and the cursor stops after it |
| CodecProperties.DecodeCanvas | src/network/message.rs:277-306 | a canvas header followed by a line of cells that fill a new canvas of that size is read as that canvas, and the cursor stops after the cells' line |
| CodecProperties.FormatCanvas | src/network/message.rs:346 | a canvas is written as its header line, then its cells on a line of their own |
| CodecProperties.CellsFill | src/network/message.rs:297-304 | the cells line read back into a new canvas of the announced size gives the canvas |
| CodecProperties.DecodeLineAt | src/network/message.rs:207-332 | round trip: a message other than a canvas, written anywhere in the input, reads back and stops at its end |
| CodecProperties.DecodeCanvasAt | src/network/message.rs:277-306 | round trip: a canvas message reads back and stops after its cells' line feed |
| CodecProperties.DecodeAt | src/network/message.rs:207-353 | round trip for every message whose character is a cell character and whose canvas has no line feed in its cells |
| CodecProperties.DecodeFormat | src/network/message.rs:207-353 | the same round trip, whatever text comes before and after the message |
| CodecProperties.DecodeFormatAll | src/network/message.rs:403-417 | the messages written one after another read back one by one, in order, each from where the previous one stopped |
| CodecProperties.DecodeWithoutLineFeed | src/network/message.rs:214-220 | input that ends before a line feed is a `FormatError` holding what was read, and the cursor is at the end |
| CodecProperties.DecodeLine | src/network/message.rs:213-226 | a line that is a whole message decodes to what its line parses to, and the cursor stops after its line feed |
| CodecExamples.ReadOneLine | src/network/message.rs:396-401 | a single line is read back as what it parses to |
| CodecExamples.SpaceCharacter | src/network/message.rs:372 | "s 1 0  \n" reads as `CharSet` x 0, y 1, space |
| CodecExamples.SpaceCharacterLine | src/network/message.rs:250-252 | an empty third and an empty fourth parameter make the space character |
| CodecExamples.VersionReqExtraFields | src/network/message.rs:382-386 | "v 1.0 1.1 1.2\n" reads as a request for 1.0 |
| CodecExamples.VersionReqExtraFieldsLine | src/network/message.rs:318-324 | only the first version parameter is parsed |
| CodecExamples.VersionOneZero | src/network/message.rs:376-380 | "1.0" parses to version 1.0 |
| CodecExamples.VersionAckExtraField | src/network/message.rs:390 | "vok 1.1\n" reads as `VersionAck` |
| CodecExamples.NoCharacter | src/network/message.rs:423 | "s 1 0 \n" fails with an invalid "c" parameter |
| CodecExamples.BadCharacterLine | src/network/message.rs:253-273 | a character field without spaces that is not exactly one character, or is whitespace other than the space, is refused and named in the error; this covers the empty field, a tab and "f\r" |
| CodecExamples.TwoSpacesBeforeCharacter | src/network/message.rs:424 | "s 1 0  f\n" fails with an invalid "c" parameter " f" |
| CodecExamples.TwoSpacesBeforeCharacterLine | src/network/message.rs:253-259 | a fourth parameter that is not the space case is refused with both pieces |
| CodecExamples.TabCharacter | src/network/message.rs:425 | "s 1 0 \t\n" fails with an invalid "c" parameter |
| CodecExamples.ReturnAndNewline | src/network/message.rs:427 | "s 1 0 f\r\n" fails with an invalid "c" parameter "f\r" |
| CodecExamples.Unterminated | src/network/message.rs:426-428 | "s 1 0 f\r" and "s 1 0 f" have no line feed and are each a `FormatError` of the whole text |
| LegacyCodec.ParseLine | src/network.rs:130-199 | a line fails with no content exactly when it has no words, fails as an unknown command exactly when its first word is unknown, and a `SetChar` carries a non-whitespace character |
| LegacyCodec.Decode | src/network.rs:113-200 | when `from_reader` does not panic, it moves the cursor forward within the input, and a `SetChar` read carries a non-whitespace character |
| LegacyCodec.ReadCells | src/network.rs:170-178 | reading the announced cells stays within the input; a canvas is read exactly when the characters read hold `width * height` bytes, `InvalidContents` naming the header line exactly when the bytes stop inside a character, and `PayloadMissing` only when the input holds fewer bytes |
| LegacyCodec.FromReader | src/network.rs:113-200 | on the reader object, the result and the new cursor are those of `Decode` |
| LegacyCodec.ReadCanvas | src/network.rs:170-177 | `width * height` bytes are read and, when they hold whole characters, inserted into a new canvas of that size; the result and the new cursor are those of `ReadCells` |
| LegacyCodec.Format | src/network.rs:209-223 | every message written ends in a line feed |
| LegacyCodec.DecodeFixed | src/network.rs:214-216 | the corrected `from_reader`, which also reads the line feed after a canvas's cells, keeps the cursor within the input |
| LegacyCodecProperties.ParseSetCharWords | src/network.rs:138-155 | the line written for a `SetChar` parses back to it |
| LegacyCodecProperties.ParseCanvasWords | src/network.rs:157-169 | the header written for a canvas announces its width and height |
| LegacyCodecProperties.ParseVersionReqWords | src/network.rs:181-193 | the line written for a `VersionReq` parses back to it |
| LegacyCodecProperties.ParseHeader | src/network.rs:130-199 | every header line written parses back to its message, or for a canvas to its size |
| LegacyCodecProperties.FormatParts | src/network.rs:209-223 | a message is written as its header line, and a canvas adds its cells and a line feed |
| LegacyCodecProperties.CellsFill | src/network.rs:170-178 | a canvas's serialization inserted into a new canvas of its size gives it back |
| LegacyCodecProperties.DecodeLineAt | src/network.rs:113-200 | round trip: a message other than a canvas reads back and stops at its end |
| LegacyCodecProperties.DecodeCanvasAt | src/network.rs:157-178 | a canvas of ASCII cells reads back, but the reader stops on the line feed `Display` wrote after the cells |
| LegacyCodecProperties.DecodeComplete | src/network.rs:118-199 | a terminated line that parses to a complete message is read as that message, and the cursor stops after it |
| LegacyCodecProperties.DecodeCanvas | src/network.rs:157-178 | a canvas header followed by `width * height` ASCII characters, one byte each, that fill a new canvas is read as that canvas, and the cursor stops right after those characters |
| LegacyCodecProperties.DecodeFixedCanvas | src/network.rs:214-216 | with the corrected reader, the same canvas followed by a line feed is read, and the cursor stops after the line feed |
| LegacyCodecProperties.DecodeLeftover | src/network.rs:125-133 | a lone line feed reads as a line with no content: an error, and the line feed is consumed |
| LegacyCodecProperties.DecodeAtEnd | src/network.rs:125-127 | an empty read is `Quit`, and the cursor stays at the end |
| LegacyCodecProperties.CanvasThenQuitBreaks | src/network.rs:214-216 | a 1x1 canvas followed by `Quit` is written as "cs 1 1 \na\nq\n"; the canvas reads back, and the next read fails on the leftover line feed instead of giving `Quit` |
| LegacyCodecProperties.DecodeFixedAt | src/network.rs:209-223 | with the corrected reader, every message written, a canvas with ASCII cells, reads back and stops exactly at its end |
| LegacyCodecProperties.DecodeFixedFormatAll | src/network.rs:265-279 | with the corrected reader, messages written one after another, canvases with ASCII cells, read back one by one, in order |
| LegacyCodecProperties.NonAsciiCellRefused | src/network.rs:170-177 | "cs 1 1 \né\n" fails with `InvalidContents`: the one byte read ends inside `é` |
| LegacyCodecProperties.NonAsciiCellWritten | src/network.rs:209-223 | `Display` writes the 1x1 canvas holding `é` as "cs 1 1 \né\n" |
| LegacyCodecProperties.ParseTestCanvas | src/network.rs:236-243 | "cs 2 3\nX1234 " reads as the 3x2 canvas that `insert("X1234")` makes |
| LegacyCodecProperties.ParseTestHeader | src/network.rs:243 | "cs 2 3" announces width 3 and height 2 |
| LegacyCodecProperties.ParseTestExpected | src/network.rs:236-237 | `insert("X1234")` into 3x2 gives the rows "X12" and "34 " |
| ClientProtocol.Connection.InitConnection | src/network/protocol.rs:11-33 | the version request for 1.0 is written; two reads follow when the first is the acknowledgement, and the outcome is `Handshake` of the replies |
| ClientProtocol.Connection.SendCharUpdate | src/network/protocol.rs:35-39 | the `SetChar` is appended to what was written, and nothing is read |
| ClientProtocol.Connection.CheckForUpdate | src/network/protocol.rs:41-47 | one read, whose outcome is `Update` of it; nothing is written |
| ClientProtocol.HandshakeSucceeds | src/network/protocol.rs:20-32 | the handshake returns a canvas exactly when an acknowledgement is followed by that canvas |
| ClientProtocol.UpdateSucceeds | src/network/protocol.rs:42-46 | an update is returned exactly for a `SetChar`, with its cell and character |
| ClientProtocol.FirstUpdateAfterCanvasPanics | src/network/protocol.rs:41-47 | after the acknowledgement and a canvas of ASCII cells, the client's first `check_for_update` reads the leftover line feed and panics |
| Server.MaxUid | src/bin/server.rs:213-218 | the largest uid is registered and bounds every registered uid |
| Server.Clients.constructor | src/bin/server.rs:171-175 | the registry starts empty |
| Server.Clients.Broadcast | src/bin/server.rs:178-183 | the text is appended to every registered stream |
| Server.Clients.Send | src/bin/server.rs:186-194 | the text is appended to every stream but the sender's, which stays as it was |
| Server.Clients.Add | src/bin/server.rs:197-203 | the new client gets a fresh uid, one past the largest (1 when empty), with an empty stream; nobody else changes |
| Server.Clients.Remove | src/bin/server.rs:206-208 | the client's entry is removed and returned if there was one |
| Server.Clients.GetNewUid | src/bin/server.rs:213-218 | the uid is one past the largest registered, so it is free and above all of them |
| Server.NextUid | src/bin/server.rs:213-218 | the loop over the uids finds one past their maximum, or 1 when there are none |
| Server.Serve | src/bin/server.rs:122-158 | the main loop keeps the canvas size |
| Server.Relayed | src/bin/server.rs:133-152 | what the loop forwards is `CharSet`s only, at most one per read |
| Server.RelayedRun | src/bin/server.rs:122-158 | the forwarded messages are the longest run of `CharSet` reads, in order, and the read after them is not a `CharSet` |
| Server.ServeStops | src/bin/server.rs:122-158 | the loop ends on the first read after that run, as `Stopped` of it says |
| Server.StoppedCases | src/bin/server.rs:124-157 | how the loop ends: leaving exactly on `Quit`, disconnecting exactly on a failed read with its error, and `unimplemented!()` exactly on a `CanvasSet` |
| Server.ServeEnding | src/bin/server.rs:124-132 | the handler leaves exactly when that read is `Quit`, and disconnects with that read's error exactly when it fails |
| Server.ServeUnimplemented | src/bin/server.rs:153-156 | the handler hits `unimplemented!()` exactly when that read is a `CanvasSet` |
| Server.ServeRegistry | src/bin/server.rs:128-131 | the client's entry is removed exactly when it leaves, otherwise the registered clients stay the same, and the client's own stream is never written |
| Server.ServeRelays | src/bin/server.rs:149-151 | every other client's stream gains the forwarded messages, in order |
| Server.ServeUntouched | src/bin/server.rs:135-147 | a cell that no forwarded message names keeps its character |
| Server.ServeLastWrite | src/bin/server.rs:135-147 | an in-bounds cell holds the character of the last forwarded message naming it |
| Server.SessionKeys | src/bin/server.rs:86-160 | apart from the handler's own client, a session leaves the registered clients as they were; the handler's own uid is removed only when it leaves with `Quit`, and its stream is never written |
| Server.SessionRelays | src/bin/server.rs:133-152 | every other client's stream gains the text of what the session forwards, in order |
| Server.ConnectionRegistry | src/bin/server.rs:72-78 | after one connection, every other client stays registered and gains what the session forwards; the connection's own uid is removed unless the handler panicked, which leaves it registered with an empty stream |
| Server.AcceptedReplyReadsBack | src/bin/server.rs:100-120 | what the server writes to an accepted client reads back as the acknowledgement and then the canvas |
| Server.Server.HandleStream | src/bin/server.rs:86-160 | the reply written is the version answer to the first read, then the canvas if it was accepted; the canvas and the registry end as `Session` specifies |
| Server.Server.MainLoop | src/bin/server.rs:122-159 | the loop on the shared canvas and registry ends in the state and the way `Serve` specifies |
| Server.Server.Connection | src/bin/server.rs:66-79 | a client is registered with a fresh uid and served; when the handler returns, its uid is removed, but a handler that panics leaves it registered with an empty stream; every other client's stream gains what the session forwards |
| CollabServer.NewInfo | examples/server.rs:192-198 | a new entry is at the origin and has not asked for position updates |
| CollabServer.Chosen | examples/server.rs:241-245 | `filter_send` writes to exactly the clients other than the ignored one that the predicate accepts |
| CollabServer.Clients.constructor | examples/server.rs:207-212 | the registry starts empty |
| CollabServer.Clients.Broadcast | examples/server.rs:214-219 | the message is appended to every stream |
| CollabServer.Clients.Send | examples/server.rs:222-230 | the message is appended to every stream but the sender's |
| CollabServer.Clients.FilterSend | examples/server.rs:232-250 | the message is appended to the streams of the chosen clients only |
| CollabServer.Clients.Add | examples/server.rs:253-260 | the new client gets a fresh uid, one past the largest, and a new entry |
| CollabServer.Clients.Remove | examples/server.rs:263-265 | the entry is removed and its stream returned if there was one |
| CollabServer.Clients.GetNewUid | examples/server.rs:270-275 | the uid is one past the largest registered |
| CollabServer.Clients.UpdatePos | examples/server.rs:277-281 | the client's position is stored and its move is sent to the others that want positions |
| CollabServer.PosUpdatedKeepsOthers | examples/server.rs:277-281 | a position update changes only that client's position and keeps every flag |
| CollabServer.ClientHandler.constructor | examples/server.rs:77-84 | a handler starts without position updates and with nothing written |
| CollabServer.ClientHandler.OnCharUpdate | examples/server.rs:137-156 | an in-bounds cell is set and forwarded to everyone else; an out-of-bounds one changes nothing |
| CollabServer.ClientHandler.OnPosUpdate | examples/server.rs:158-182 | the position is updated; the first time, the flag is set and the client is sent every other client's position |
| CollabServer.ClientHandler.SendSnapshot | examples/server.rs:173-179 | what is written is, as a multiset, one position message for each other registered client |
| CollabServer.ClientHandler.Finish | examples/server.rs:92 | after `run` returns, the client's uid is removed from the registry and nothing else in it changes |
| CollabServer.SnapshotSize | examples/server.rs:173-179 | the snapshot holds one message per other registered client |
| CollabServer.SnapshotOfOthers | examples/server.rs:173-179 | the snapshot depends only on the other clients' positions |
| Place.ClientConnection.constructor | examples/an-ascii-place.rs:161-169 | a connection starts with its last write one wait before it connected |
| Place.ClientConnection.Run | examples/an-ascii-place.rs:76-95 | placements are judged in order: those after the cooldown are forwarded and reset the timer; the others are answered with the canvas's cell; an early one out of bounds panics |
| Place.Handle | examples/an-ascii-place.rs:76-95 | the loop sends and answers what `Cooldown` sorts into passed and held, and stops at the first held placement outside the canvas |
| Place.Decide | examples/an-ascii-place.rs:80-94 | one placement goes on exactly when it is cooled down or inside the canvas, and the judged tally still matches what was sent |
| Place.PassedSpaced | examples/an-ascii-place.rs:82-83 | the last write is the last forwarded placement's time; forwarded placements are each a full wait after the one before |
| Place.SpacedApart | examples/an-ascii-place.rs:82-89 | forwarded placements `j - i` apart are at least `(j - i) * wait` apart in time |
| Place.PassedHeldSplit | examples/an-ascii-place.rs:80-94 | every placement is either forwarded or held, none lost or duplicated |
| Place.Forwards | examples/an-ascii-place.rs:84-89 | one `ThreadMessage::SetChar` per forwarded placement, with its cell and character, in order |
| Place.Restorations | examples/an-ascii-place.rs:90-94 | one answer per held placement, with the character the canvas holds at its cell, in order |
| Place.Arrivals | examples/an-ascii-place.rs:141-157 | at most one arrival per accept outcome |
| Place.RelayedTo | examples/an-ascii-place.rs:193-211 | what a client's stream is sent by the keeper is `CharSet`s only |
| Place.FirstPlacementPasses | examples/an-ascii-place.rs:166 | a client's first placement is never rejected |
| Place.Apply | examples/an-ascii-place.rs:193-211 | an out-of-bounds set changes nothing; otherwise the cell is set, every other cell kept, and every stream but the sender's gains the `CharSet` |
| Place.Keep | examples/an-ascii-place.rs:189-216 | the keeper keeps the canvas size and the set of registered clients |
| Place.KeepEnds | examples/an-ascii-place.rs:191-192 | the keeper shuts down exactly when its inbox holds a `Shutdown` |
| Place.KeepStopsAtShutdown | examples/an-ascii-place.rs:192 | nothing after the first `Shutdown` is processed |
| Place.KeepRelays | examples/an-ascii-place.rs:205-211 | each client's stream gains the in-bounds sets of the other clients, in order, up to the shutdown |
| Place.Registry.constructor | examples/an-ascii-place.rs:240 | the registry starts empty |
| Place.CanvasKeeper.constructor | examples/an-ascii-place.rs:248-252 | the keeper shares the canvas and the registry |
| Place.CanvasKeeper.OnSetChar | examples/an-ascii-place.rs:193-211 | one `SetChar` leaves the canvas and the streams as `Apply` specifies |
| Place.CanvasKeeper.WriteToOthers | examples/an-ascii-place.rs:205-211 | the text is appended to every stream but the sender's |
| Place.CanvasKeeper.Run | examples/an-ascii-place.rs:189-216 | the loop over the inbox ends in the state and the way `Keep` specifies |
| Place.AdmitKeeps | examples/an-ascii-place.rs:151-158 | accepting clients keeps every existing stream and adds empty ones |
| Place.AdmitRegisters | examples/an-ascii-place.rs:151-158 | the manager keeps waiting exactly when every accepted address is new and distinct, and then registers exactly them |
| Place.ConnectionManager.constructor | examples/an-ascii-place.rs:254-260 | the manager shares the wait, the canvas and the registry |
| Place.ConnectionManager.Run | examples/an-ascii-place.rs:138-179 | failed accepts are skipped, the registry evolves as `Admit` says, and one fresh connection per accepted client starts one wait before its accept time |

## Left out

- Transparency and a start other than `(0, 0)` in `insert_from_iter`, and `insert_from_read`: `insert` is the only caller in the core, and it passes `(0, 0)` and no transparency.
- I/O errors: a read or a write never fails in the model, so `ParseMessageError::Io` and the `?` on writes are not modelled.
- Input.TakeBytes: when the `width * height` bytes stop inside a character, the model consumes that whole character, while the source leaves its remaining bytes in the stream for the next read. Input is text, so the bytes of one character cannot be split.
- LegacyCodecProperties.RoundTrips: a canvas with a cell outside ASCII does not read back (`NonAsciiCellRefused`), so the round-trip lemmas of the older codec cover canvases of ASCII cells only.
- LegacyCodec.Decode, LegacyCodec.FromReader, LegacyCodec.ReadCanvas, Input.Reader.ReadExact, Input.ScanBytes: when the input ends before the announced cells, the source ignores the failed `read_exact`; the model reports `PayloadMissing` and does not say what is inserted.
- Codec.Decode: does not model the overflow of `width * height + 1`. It only sizes a buffer, and a canvas that large cannot be allocated.
- Threads, mutexes and channels: each handler is modelled on its own. The canvas and the registry are what it reads and updates, and interleavings with other handlers are not modelled.
- Place.ClientConnection.Run: the canvas it reads to answer rejected placements is one snapshot. The keeper's concurrent sets are not interleaved.
- The clock: instants are integers given with each placement. The underflow of `Instant::now() - wait` is not modelled.
- `HashMap` iteration order: the order in which streams are written does not show, since each stream is separate. The position snapshot of examples/server.rs is stated as a multiset.
- Sockets are outboxes (strings, or sequences of messages); connecting, accepting and shutting down streams are not modelled, except the accept outcomes of the An Ascii Place manager.
- The `main` functions, option parsing and logging.
- Place's `Server` trait methods (`init_connection`, `check_for_update`, `send_char_update`) are not part of this model. The placements a client makes are given as input.
- The `CollabPosSet` wire format and its codec are not part of this model. `CollabServer` streams hold messages.
- `Clients::add` and `get_new_uid` (both servers): a registered uid of 255 makes `max_uid + 1` overflow. This is a precondition of `Server.Clients.Add`, `Server.Clients.GetNewUid`, `Server.NextUid`, `CollabServer.Clients.Add` and `CollabServer.Clients.GetNewUid`, not a modelled panic.
- CollabServer.Clients.UpdatePos: the source unwraps the entry of the client; the model requires that the entry exists.
- src/network/protocol.rs matches on `Message::CanvasSend`, which neither codec defines; the model reads it as the older codec's canvas message `CanvasUpdate`, since the protocol imports the older codec.
- The `Server` trait that examples/server.rs and examples/an-ascii-place.rs implement lives in a part of the network module that is not part of this model. The handlers' callbacks are modelled directly.
- Canvas.Get and Canvas.GetI as methods: reading is modelled by `Grid.Get` and `Grid.GetI` on the canvas value.

## Findings

| source | as written | input that shows it | evidently intended | confidence | as-written member | corrected member |
|---|---|---|---|---|---|---|
| src/canvas.rs:108-112 | `i_to_xy` takes the column as `i % height` | a 3x2 canvas and index 2: `(0, 0)` instead of `(2, 0)` | the column is `i % width`, the row-major inverse of `y * width + x` | high (not executed) | CanvasGrid.IToXyWrongOnThreeByTwo | CanvasGrid.RowMajorXyInverts |
| src/network.rs:214-216 | `Display` writes a line feed after a canvas's cells, which `from_reader` does not read | a 1x1 canvas then `Quit`: "cs 1 1 \na\nq\n" reads the canvas, then fails on a lone line feed | the reader consumes the line feed after the cells, so written messages read back in order | high (not executed) | LegacyCodecProperties.CanvasThenQuitBreaks | LegacyCodecProperties.DecodeFixedFormatAll |

/**
 * The cases of the parse tests of src/network/message.rs that the round trip
 * does not cover: the spellings of a `CharSet` line that `Display` never
 * writes, extra fields after a version request or acknowledgement, and the
 * lines `from_reader` refuses. Each case is stated for its first line, and
 * then for the read of that line with its line feed.
 */
module CodecExamples {
  import opened Basics
  import opened Text
  import opened Versions
  import opened Codec
  import opened CodecProperties

  /** A read of one whole line decodes to what `ParseLine` makes of the line. */
  lemma ReadOneLine(data: string, line: string)
    requires data == line + "\n" && '\n' !in line
    requires ParseLine(line).Err? || ParseLine(line).value.Complete?
    ensures Decode(data, 0) ==
      Decoded(if ParseLine(line).Ok? then Ok(ParseLine(line).value.m) else Err(ParseLine(line).error), |data|)
  {
    assert "" + line + "\n" + "" == data;
    DecodeLine("", line, "");
  }

  /** Row 1, column 0 as the test writes them. */
  lemma RowOneColumnZero()
    ensures ParseUnsigned("1", UsizeMax) == Some(1) && ParseUnsigned("0", UsizeMax) == Some(0)
  {
    assert NatToString(1) == "1" && NatToString(0) == "0";
    ParseUnsignedOfNatToString(1, UsizeMax);
    ParseUnsignedOfNatToString(0, UsizeMax);
  }

  // ---------------------------------------------------------------------------
  // parse_good

  /** Two spaces after the column: the character is a space. */
  lemma SpaceCharacter(data: string)
    requires data == "s 1 0  \n"
    ensures Decode(data, 0) == Decoded(Ok(CharSet(0, 1, ' ')), |data|)
  {
    var line := data[..|data| - 1];
    SpaceCharacterLine(line);
    ReadOneLine(data, line);
  }

  lemma SpaceCharacterLine(line: string)
    requires line == "s 1 0  "
    ensures ParseLine(line) == Ok(Complete(CharSet(0, 1, ' ')))
  {
    var parts := ["s", "1", "0", "", ""];
    assert Join(parts, ' ') == line;
    SplitJoin(parts, ' ');
    RowOneColumnZero();
  }

  /** A version request reads the first version and ignores the fields after it. */
  lemma VersionReqExtraFields(data: string)
    requires data == "v 1.0 1.1 1.2\n"
    ensures Decode(data, 0) == Decoded(Ok(VersionReq(Version(1, 0))), |data|)
  {
    var line := data[..|data| - 1];
    VersionReqExtraFieldsLine(line);
    ReadOneLine(data, line);
  }

  lemma VersionReqExtraFieldsLine(line: string)
    requires line == "v 1.0 1.1 1.2"
    ensures ParseLine(line) == Ok(Complete(VersionReq(Version(1, 0))))
  {
    var parts := ["v", "1.0", "1.1", "1.2"];
    assert Join(parts, ' ') == line;
    SplitJoin(parts, ' ');
    VersionOneZero();
  }

  lemma VersionOneZero()
    ensures ParseVersion("1.0") == Ok(Version(1, 0))
  {
    assert Join(["1", "0"], '.') == "1.0";
    SplitJoin(["1", "0"], '.');
    RowOneColumnZero();
  }

  /** An acknowledgement ignores the fields after it. */
  lemma VersionAckExtraField(data: string)
    requires data == "vok 1.1\n"
    ensures Decode(data, 0) == Decoded(Ok(VersionAck), |data|)
  {
    var line := data[..|data| - 1];
    var parts := ["vok", "1.1"];
    assert Join(parts, ' ') == line;
    SplitJoin(parts, ' ');
    ReadOneLine(data, line);
  }

  // ---------------------------------------------------------------------------
  // parse_bad

  /** Whitespace after the column but no character. */
  lemma NoCharacter(data: string)
    requires data == "s 1 0 \n"
    ensures Decode(data, 0) == Decoded(Err(InvalidParam("Charset", "c", "")), |data|)
  {
    var line := data[..|data| - 1];
    assert line == "s 1 0 " + "";
    BadCharacterLine("");
    ReadOneLine(data, line);
  }

  /**
   * A character field without spaces that is not a cell character, because
   * it is not exactly one character or is whitespace other than the space,
   * is refused and named in the error.
   */
  lemma BadCharacterLine(field: string)
    requires ' ' !in field
    requires |field| == 1 ==> IsAsciiWhitespace(field[0])
    ensures ParseLine("s 1 0 " + field) == Err(InvalidParam("Charset", "c", field))
  {
    var parts := ["s", "1", "0", field];
    assert parts[1..][1..][1..] == [field];
    assert parts[1..][1..] == ["0", field];
    assert parts[1..] == ["1", "0", field];
    assert Join(["0", field], ' ') == "0" + [' '] + field;
    assert Join(["1", "0", field], ' ') == "1" + [' '] + Join(["0", field], ' ');
    assert Join(parts, ' ') == "s" + [' '] + Join(["1", "0", field], ' ');
    assert Join(parts, ' ') == "s 1 0 " + field;
    SplitJoin(parts, ' ');
    RowOneColumnZero();
  }

  /** Two spaces and then a character: neither a space nor one character. */
  lemma TwoSpacesBeforeCharacter(data: string)
    requires data == "s 1 0  f\n"
    ensures Decode(data, 0) == Decoded(Err(InvalidParam("Charset", "c", " f")), |data|)
  {
    var line := data[..|data| - 1];
    TwoSpacesBeforeCharacterLine(line);
    ReadOneLine(data, line);
  }

  lemma TwoSpacesBeforeCharacterLine(line: string)
    requires line == "s 1 0  f"
    ensures ParseLine(line) == Err(InvalidParam("Charset", "c", " f"))
  {
    var parts := ["s", "1", "0", "", "f"];
    assert Join(parts, ' ') == line;
    SplitJoin(parts, ' ');
    RowOneColumnZero();
    assert "" + " " + "f" == " f";
  }

  /** A tab is whitespace other than the space. */
  lemma TabCharacter(data: string)
    requires data == "s 1 0 \t\n"
    ensures Decode(data, 0) == Decoded(Err(InvalidParam("Charset", "c", "\t")), |data|)
  {
    var line := data[..|data| - 1];
    assert line == "s 1 0 " + "\t";
    BadCharacterLine("\t");
    ReadOneLine(data, line);
  }

  /** A carriage return before the line feed stays part of the character field. */
  lemma ReturnAndNewline(data: string)
    requires data == "s 1 0 f\r\n"
    ensures Decode(data, 0) == Decoded(Err(InvalidParam("Charset", "c", "f\r")), |data|)
  {
    var line := data[..|data| - 1];
    assert line == "s 1 0 " + "f\r";
    BadCharacterLine("f\r");
    ReadOneLine(data, line);
  }

  /** A carriage return alone does not end a line, nor does the end of the input: both are `FormatError`s. */
  lemma Unterminated(data: string)
    requires data == "s 1 0 f\r" || data == "s 1 0 f"
    ensures Decode(data, 0) == Decoded(Err(FormatError(data)), |data|)
  {
    assert data[0..] == data;
    DecodeWithoutLineFeed(data, 0);
  }
}

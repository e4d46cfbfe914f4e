/**
 * The text forms of a canvas in src/canvas.rs: building a canvas from a
 * string (`From<&str>`), the row-per-line dump `as_str`, and `Display`.
 */
module CanvasText {
  import opened Basics
  import opened Text
  import opened CanvasGrid
  import opened CanvasInsert

  // ---------------------------------------------------------------------------
  // str::lines

  /** Drops one carriage return at the end of a line. */
  function StripCR(line: string): (r: string)
    ensures r == line || (|line| > 0 && line[|line| - 1] == '\r' && r == line[..|line| - 1])
  {
    if |line| > 0 && line[|line| - 1] == '\r' then line[..|line| - 1] else line
  }

  /**
   * `str::lines`: the pieces between line feeds, where a final empty piece
   * (after a trailing line feed, or of the empty string) is not a line, and a
   * carriage return directly before a line feed belongs to the line ending.
   */
  function Lines(s: string): (ls: seq<string>)
    ensures forall i :: 0 <= i < |ls| ==> '\n' !in ls[i]
  {
    var parts := Split(s, '\n');
    var n := if parts[|parts| - 1] == "" then |parts| - 1 else |parts|;
    seq(n, i requires 0 <= i < n => if i < |parts| - 1 then StripCR(parts[i]) else parts[i])
  }

  /** The dimension fold of `From<&str>`: the greatest byte length of the lines. */
  function MaxLen(ls: seq<string>): (w: nat)
    ensures forall i :: 0 <= i < |ls| ==> ByteLen(ls[i]) <= w
    ensures w == 0 || exists i :: 0 <= i < |ls| && ByteLen(ls[i]) == w
    decreases |ls|
  {
    if |ls| == 0 then 0
    else
      var w := MaxLen(ls[..|ls| - 1]);
      var n := ByteLen(ls[|ls| - 1]);
      assert forall i :: 0 <= i < |ls| - 1 ==> ls[..|ls| - 1][i] == ls[i];
      if n > w then n else w
  }

  /**
   * `From<&str>`: a blank canvas as wide as the longest line and with one row
   * per line, into which the whole string is inserted; `None` is the panic
   * of the insertion (a zero-width canvas meeting a character).
   */
  function FromStr(s: string): (r: Option<Grid>)
    ensures r.Some? ==> r.value.Valid() && r.value.width == MaxLen(Lines(s)) && r.value.height == |Lines(s)|
  {
    var ls := Lines(s);
    match Insert(NewGrid(MaxLen(ls), |ls|), s)
    case Done(g, _) => Some(g)
    case SetOutOfBounds => None
  }

  /** The rows followed by a line feed each. */
  function RowsText(rows: seq<string>): string
    decreases |rows|
  {
    if |rows| == 0 then "" else RowsText(rows[..|rows| - 1]) + rows[|rows| - 1] + "\n"
  }

  /** `as_str`: every row followed by a line feed. */
  function AsStr(g: Grid): string {
    RowsText(g.rows)
  }

  /** `Display`: the rows separated by line feeds, with none after the last. */
  function Display(g: Grid): string {
    Join(g.rows, '\n')
  }

  /** `n` spaces. */
  function Spaces(n: nat): (s: string)
    ensures |s| == n && forall i :: 0 <= i < n ==> s[i] == ' '
  {
    seq(n, _ => ' ')
  }

  /** The lines left-aligned on rows `width` wide, padded with spaces. */
  function Padded(ls: seq<string>, width: nat): (g: Grid)
    requires forall i :: 0 <= i < |ls| ==> |ls[i]| <= width
    ensures g.Valid() && g.width == width && g.height == |ls|
  {
    Grid(width, |ls|, seq(|ls|, i requires 0 <= i < |ls| => ls[i] + Spaces(width - |ls[i]|)))
  }

  // ---------------------------------------------------------------------------
  // Inserting lines

  /** The canvas with `line` written on row `y` from column `x`. */
  function PutAt(g: Grid, x: nat, y: nat, line: string): (r: Grid)
    requires g.Valid() && y < g.height && x + |line| <= g.width
    ensures r.Valid() && r.width == g.width && r.height == g.height
  {
    Grid(g.width, g.height, g.rows[y := g.rows[y][..x] + line + g.rows[y][x + |line|..]])
  }

  lemma PutAtEmpty(g: Grid, x: nat, y: nat)
    requires g.Valid() && y < g.height && x <= g.width
    ensures PutAt(g, x, y, "") == g
  {
    assert g.rows[y][..x] + "" + g.rows[y][x..] == g.rows[y];
  }

  /** Writing a line is setting its first character and writing the rest one column on. */
  lemma PutAtStep(g: Grid, x: nat, y: nat, line: string)
    requires g.Valid() && y < g.height && x + |line| <= g.width && |line| > 0
    ensures PutAt(g.Set(x, y, line[0]), x + 1, y, line[1..]) == PutAt(g, x, y, line)
  {
    var r := g.rows[y];
    var r1 := g.Set(x, y, line[0]).rows[y];
    assert r1 == r[x := line[0]];
    assert r1[..x + 1] == r[..x] + [line[0]];
    assert r1[x + 1 + |line[1..]|..] == r[x + |line|..];
    assert [line[0]] + line[1..] == line;
    assert r1[..x + 1] + line[1..] + r1[x + 1 + |line[1..]|..] == r[..x] + line + r[x + |line|..];
    assert g.Set(x, y, line[0]).rows[y := r1[..x + 1] + line[1..] + r1[x + 1 + |line[1..]|..]]
        == g.rows[y := r[..x] + line + r[x + |line|..]];
  }

  /** A line that fits in the rest of a row is written along it, one `set` per character. */
  lemma {:induction false} InsertRowPrefix(g: Grid, line: string, rest: string, x: nat, y: nat, placed: nat)
    requires g.Valid() && y < g.height && x + |line| <= g.width && '\n' !in line
    ensures InsertFrom(g, line + rest, x, y, placed)
         == InsertFrom(PutAt(g, x, y, line), rest, x + |line|, y, placed + |line|)
    decreases |line|
  {
    if |line| == 0 {
      assert line + rest == rest;
      PutAtEmpty(g, x, y);
    } else {
      var c := line[0];
      assert (line + rest)[0] == c && (line + rest)[1..] == line[1..] + rest;
      var g1 := g.Set(x, y, c);
      InsertPlaces(g, line + rest, x, y, placed);
      InsertRowPrefix(g1, line[1..], rest, x + 1, y, placed + 1);
      PutAtStep(g, x, y, line);
    }
  }

  /** The canvas with `line` written at the start of row `y`; an empty line changes nothing. */
  function WriteLine(g: Grid, y: nat, line: string): (r: Grid)
    requires g.Valid() && |line| <= g.width && (line != "" ==> y < g.height)
    ensures r.Valid() && r.width == g.width && r.height == g.height
    ensures forall y' :: 0 <= y' < g.height ==>
      r.rows[y'] == if y' == y then line + g.rows[y'][|line|..] else g.rows[y']
  {
    if line == "" then g else PutAt(g, 0, y, line)
  }

  /** A line and the line feed after it: the line is written and the cursor goes to the next row. */
  lemma InsertLine(g: Grid, line: string, rest: string, y: nat, placed: nat)
    requires g.Valid() && |line| <= g.width && (line != "" ==> y < g.height) && '\n' !in line
    ensures InsertFrom(g, line + ("\n" + rest), 0, y, placed)
         == InsertFrom(WriteLine(g, y, line), rest, 0, y + 1, placed + |line|)
  {
    assert ("\n" + rest)[0] == '\n' && ("\n" + rest)[1..] == rest;
    if line == "" {
      assert line + ("\n" + rest) == "\n" + rest;
    } else {
      InsertRowPrefix(g, line, "\n" + rest, 0, y, placed);
    }
  }

  /** A last line, with nothing after it, is written and ends the insertion. */
  lemma InsertLastLine(g: Grid, line: string, y: nat, placed: nat)
    requires g.Valid() && |line| <= g.width && (line != "" ==> y < g.height) && '\n' !in line
    ensures InsertFrom(g, line, 0, y, placed) == Done(WriteLine(g, y, line), placed + |line|)
  {
    if line != "" {
      assert line + "" == line;
      InsertRowPrefix(g, line, "", 0, y, placed);
    }
  }

  /**
   * Row `y'` after lines `parts` are written from row `y`: the line meant
   * for it over the start of the old row, or the old row when none is.
   */
  function RowAfter(g: Grid, parts: seq<string>, y: nat, y': nat): string
    requires g.Valid() && y' < g.height
    requires forall k :: 0 <= k < |parts| ==> |parts[k]| <= g.width
  {
    if y <= y' < y + |parts| then parts[y' - y] + g.rows[y'][|parts[y' - y]|..] else g.rows[y']
  }

  /** Writing the first line, then the others from the next row, writes them all from this row. */
  lemma RowAfterShift(g: Grid, parts: seq<string>, y: nat)
    requires g.Valid() && |parts| >= 1
    requires forall k :: 0 <= k < |parts| ==> |parts[k]| <= g.width
    requires parts[0] != "" ==> y < g.height
    ensures forall y' :: 0 <= y' < g.height ==>
      RowAfter(WriteLine(g, y, parts[0]), parts[1..], y + 1, y') == RowAfter(g, parts, y, y')
  {
    var g1 := WriteLine(g, y, parts[0]);
    forall y' | 0 <= y' < g.height
      ensures RowAfter(g1, parts[1..], y + 1, y') == RowAfter(g, parts, y, y')
    {
      if y + 1 <= y' < y + |parts| {
        assert parts[1..][y' - (y + 1)] == parts[y' - y];
      }
    }
  }

  /**
   * Lines that fit the width, joined by line feeds and inserted from the
   * start of row `y`, each land left-aligned on their own row (a row that
   * does not exist only ever receives an empty line); the rest of each such
   * row and every other row keep their characters.
   */
  lemma {:induction false} InsertJoin(g: Grid, parts: seq<string>, y: nat, placed: nat)
    requires g.Valid() && |parts| >= 1
    requires forall k :: 0 <= k < |parts| ==> '\n' !in parts[k] && |parts[k]| <= g.width
    requires forall k :: 0 <= k < |parts| && parts[k] != "" ==> y + k < g.height
    ensures InsertFrom(g, Join(parts, '\n'), 0, y, placed).Done?
    ensures forall y' :: 0 <= y' < g.height ==>
      InsertFrom(g, Join(parts, '\n'), 0, y, placed).grid.rows[y'] == RowAfter(g, parts, y, y')
    decreases |parts|
  {
    var a := parts[0];
    var g1 := WriteLine(g, y, a);
    if |parts| == 1 {
      InsertLastLine(g, a, y, placed);
    } else {
      var rest := parts[1..];
      assert Join(parts, '\n') == a + ("\n" + Join(rest, '\n'));
      InsertLine(g, a, Join(rest, '\n'), y, placed);
      InsertJoin(g1, rest, y + 1, placed + |a|);
      RowAfterShift(g, parts, y);
    }
  }

  // ---------------------------------------------------------------------------
  // From<&str>

  lemma {:induction false} SplitAvoids(s: string, sep: char, c: char)
    requires c !in s
    ensures forall i :: 0 <= i < |Split(s, sep)| ==> c !in Split(s, sep)[i]
    decreases |s|
  {
    if |s| > 0 {
      SplitAvoids(s[1..], sep, c);
    }
  }

  /** Without carriage returns the lines are the pieces between line feeds, less a final empty one. */
  lemma {:induction false} LinesPlain(s: string)
    requires '\r' !in s
    ensures var parts := Split(s, '\n');
      Lines(s) == if parts[|parts| - 1] == "" then parts[..|parts| - 1] else parts
  {
    var parts := Split(s, '\n');
    SplitAvoids(s, '\n', '\r');
    var n := if parts[|parts| - 1] == "" then |parts| - 1 else |parts|;
    forall i | 0 <= i < n
      ensures Lines(s)[i] == parts[i]
    {
      StripPlain(parts[i]);
    }
    assert Lines(s) == parts[..n];
  }

  /** A line without a carriage return is kept as it is. */
  lemma StripPlain(line: string)
    requires '\r' !in line
    ensures StripCR(line) == line
  {
    if |line| > 0 {
      assert line[|line| - 1] in line;
    }
  }

  /**
   * `From<&str>` on text without carriage returns: one row per line, as wide
   * as the longest line, each line left-aligned on its row and padded with
   * spaces.
   */
  lemma FromStrLayout(s: string)
    requires '\r' !in s
    ensures forall i :: 0 <= i < |Lines(s)| ==> |Lines(s)[i]| <= MaxLen(Lines(s))
    ensures FromStr(s) == Some(Padded(Lines(s), MaxLen(Lines(s))))
  {
    var ls := Lines(s);
    var parts := Split(s, '\n');
    var w, h := MaxLen(ls), |ls|;
    LinesPrefix(s);
    LinesFit(s);
    JoinSplit(s, '\n');
    var g := NewGrid(w, h);
    InsertJoin(g, parts, 0, 0);
    var r := Insert(g, s);
    PaddedRows(parts, ls, w);
    assert r.grid.rows == Padded(ls, w).rows;
  }

  /** The pieces between line feeds of text without carriage returns: the lines, then empty pieces. */
  lemma LinesPrefix(s: string)
    requires '\r' !in s
    ensures PiecesOfLines(Split(s, '\n'), Lines(s))
  {
    var parts, ls := Split(s, '\n'), Lines(s);
    LinesPlain(s);
    PiecesPrefix(parts, ls);
  }

  predicate PiecesOfLines(parts: seq<string>, ls: seq<string>) {
    && |ls| <= |parts|
    && (forall k :: 0 <= k < |ls| ==> parts[k] == ls[k])
    && (forall k :: |ls| <= k < |parts| ==> parts[k] == "")
  }

  /** No piece between line feeds of text without carriage returns is wider than the widest line. */
  lemma LinesFit(s: string)
    requires '\r' !in s
    ensures forall k :: 0 <= k < |Split(s, '\n')| ==> |Split(s, '\n')[k]| <= MaxLen(Lines(s))
  {
    LinesPlain(s);
    PiecesPrefix(Split(s, '\n'), Lines(s));
    PiecesFit(Split(s, '\n'), Lines(s));
  }

  /** Lines that are the pieces, less a final empty one, are a prefix of them followed by empty pieces. */
  lemma PiecesPrefix(parts: seq<string>, ls: seq<string>)
    requires |parts| >= 1 && ls == if parts[|parts| - 1] == "" then parts[..|parts| - 1] else parts
    ensures PiecesOfLines(parts, ls)
  {
    if parts[|parts| - 1] == "" {
      assert forall k :: 0 <= k < |ls| ==> parts[k] == ls[k];
    } else {
      assert ls == parts;
    }
  }

  /** No piece is wider than the widest of the lines it holds. */
  lemma PiecesFit(parts: seq<string>, ls: seq<string>)
    requires PiecesOfLines(parts, ls)
    ensures forall k :: 0 <= k < |parts| ==> |parts[k]| <= MaxLen(ls)
  {
    forall k | 0 <= k < |parts| ensures |parts[k]| <= MaxLen(ls) {
      if k < |ls| {
        assert ByteLen(ls[k]) <= MaxLen(ls);
      }
    }
  }

  /** Writing the lines from row 0 into a blank canvas gives the padded rows. */
  lemma PaddedRows(parts: seq<string>, ls: seq<string>, w: nat)
    requires |ls| <= |parts|
    requires forall k :: 0 <= k < |parts| ==> |parts[k]| <= w
    requires forall k :: 0 <= k < |ls| ==> parts[k] == ls[k]
    ensures forall y' :: 0 <= y' < |ls| ==>
      RowAfter(NewGrid(w, |ls|), parts, 0, y') == Padded(ls, w).rows[y']
  {
    var g := NewGrid(w, |ls|);
    forall y' | 0 <= y' < |ls| ensures RowAfter(g, parts, 0, y') == Padded(ls, w).rows[y'] {
      assert g.rows[y'][|ls[y']|..] == Spaces(w - |ls[y']|);
    }
  }

  lemma PaddedGet(ls: seq<string>, w: nat, x: nat, y: nat)
    requires forall i :: 0 <= i < |ls| ==> |ls[i]| <= w
    requires y < |ls| && x < w
    ensures Padded(ls, w).Get(x, y) == if x < |ls[y]| then ls[y][x] else ' '
  {
  }

  /** Cell by cell: a line's characters, then spaces to the right edge. */
  lemma FromStrGet(s: string, x: nat, y: nat)
    requires '\r' !in s && y < |Lines(s)| && x < MaxLen(Lines(s))
    ensures FromStr(s).Some?
    ensures FromStr(s).value.Get(x, y) == if x < |Lines(s)[y]| then Lines(s)[y][x] else ' '
  {
    FromStrLayout(s);
    PaddedGet(Lines(s), MaxLen(Lines(s)), x, y);
  }

  /** Text without carriage returns that ends in a line feed: its lines are the pieces before the last. */
  lemma LinesOfPieces(s: string, parts: seq<string>)
    requires Split(s, '\n') == parts && '\r' !in s && parts[|parts| - 1] == ""
    ensures Lines(s) == parts[..|parts| - 1]
  {
    LinesPlain(s);
  }

  /** `FromStrLayout` for text whose lines and width are already known. */
  lemma FromStrOfLines(s: string, ls: seq<string>, w: nat)
    requires '\r' !in s && Lines(s) == ls && MaxLen(ls) == w
    ensures forall i :: 0 <= i < |ls| ==> |ls[i]| <= w
    ensures FromStr(s) == Some(Padded(ls, w))
  {
    FromStrLayout(s);
  }

  /** Text of one line without a line ending is that line. */
  lemma LinesSingle(s: string)
    requires |s| > 0 && '\n' !in s && '\r' !in s
    ensures Lines(s) == [s]
  {
    SplitNone(s, '\n');
    LinesPlain(s);
  }

  /** Text of one plain line without a line ending becomes a one-row canvas as wide as the line. */
  lemma FromStrSingle(s: string)
    requires |s| > 0 && PlainRows([s])
    ensures FromStr(s) == Some(Grid(|s|, 1, [s]))
  {
    var t := Grid(|s|, 1, [s]);
    PlainRow([s], 0);
    LinesSingle(s);
    MaxLenOfRows(t);
    FromStrLayout(s);
    PaddedFull(t);
  }

  lemma OneLinePlain()
    ensures PlainRows(["foobarflyer"])
  {
  }

  /** `"foobarflyer"` becomes an 11 x 1 canvas holding the text. */
  lemma FromStrOneLine()
    ensures FromStr("foobarflyer") == Some(Grid(11, 1, ["foobarflyer"]))
  {
    OneLinePlain();
    FromStrSingle("foobarflyer");
  }

  lemma FourLinesText(s: string)
    requires s == "foo" + "\n" + "barfly" + "\n" + "\n" + "er" + "\n"
    ensures '\r' !in s
  {
  }

  lemma LinesOfFourLines(s: string)
    requires s == "foo" + "\n" + "barfly" + "\n" + "\n" + "er" + "\n"
    ensures Lines(s) == ["foo", "barfly", "", "er"]
  {
    var r4 := "er" + "\n" + "";
    var r3 := "" + "\n" + r4;
    var r2 := "barfly" + "\n" + r3;
    assert s == "foo" + "\n" + r2;
    SplitCons("foo", '\n', r2);
    SplitCons("barfly", '\n', r3);
    SplitCons("", '\n', r4);
    SplitCons("er", '\n', "");
    assert Split(s, '\n') == ["foo", "barfly", "", "er", ""];
    FourLinesText(s);
    LinesOfPieces(s, ["foo", "barfly", "", "er", ""]);
  }

  lemma MaxLenOfFourLines()
    ensures MaxLen(["foo", "barfly", "", "er"]) == 6
  {
  }

  lemma PaddedFourLines()
    ensures Padded(["foo", "barfly", "", "er"], 6) == Grid(6, 4, ["foo   ", "barfly", "      ", "er    "])
  {
    var p := Padded(["foo", "barfly", "", "er"], 6);
    assert p.rows[0] == "foo" + Spaces(3) == "foo   ";
    assert p.rows[1] == "barfly" + Spaces(0) == "barfly";
    assert p.rows[2] == "" + Spaces(6) == "      ";
    assert p.rows[3] == "er" + Spaces(4) == "er    ";
  }

  lemma FromStrFourLines(s: string)
    requires s == "foo" + "\n" + "barfly" + "\n" + "\n" + "er" + "\n"
    ensures FromStr(s) == Some(Grid(6, 4, ["foo   ", "barfly", "      ", "er    "]))
  {
    FourLinesText(s);
    LinesOfFourLines(s);
    MaxLenOfFourLines();
    FromStrOfLines(s, ["foo", "barfly", "", "er"], 6);
    PaddedFourLines();
  }

  /**
   * `"foo\nbarfly\n\ner\n"` becomes a 6 x 4 canvas: the trailing line feed
   * adds no row and the empty line is a row of spaces.
   */
  lemma FromStrLines()
    ensures FromStr("foo\nbarfly\n\ner\n") == Some(Grid(6, 4, ["foo   ", "barfly", "      ", "er    "]))
  {
    var s := "foo" + "\n" + "barfly" + "\n" + "\n" + "er" + "\n";
    FromStrFourLines(s);
    assert s == "foo\nbarfly\n\ner\n";
  }

  /**
   * `From<&str>` measures lines with their `"\r\n"` ending removed but then
   * inserts the carriage returns too: `"\r\n\r\n"` gives a 0 x 2 canvas on
   * which the first carriage return wraps to row 1 and the insertion panics.
   */
  lemma FromStrCarriageReturnPanics()
    ensures FromStr("\r\n\r\n") == None
  {
    var s := "\r\n\r\n";
    var parts := ["\r", "\r", ""];
    assert Join(parts, '\n') == s;
    SplitJoin(parts, '\n');
    assert Lines(s) == ["", ""];
    assert MaxLen(["", ""]) == 0 by {
      assert ["", ""][..1] == [""];
    }
  }

  // ---------------------------------------------------------------------------
  // as_str and Display

  /** Rows each followed by a line feed are the rows joined with a final empty piece. */
  lemma {:induction false} RowsTextJoin(rows: seq<string>)
    ensures RowsText(rows) == Join(rows + [""], '\n')
    decreases |rows|
  {
    if |rows| > 0 {
      var init, last := rows[..|rows| - 1], rows[|rows| - 1];
      RowsTextJoin(init);
      assert rows + [""] == init + [last] + [""];
      if |init| == 0 {
        assert init + [last] + [""] == [last, ""];
      } else {
        JoinSnoc(init, "", '\n');
        JoinSnoc(init, last, '\n');
        JoinSnoc(init + [last], "", '\n');
      }
    }
  }

  /** `as_str` is `Display` with a final line feed, on a canvas with rows. */
  lemma AsStrIsDisplayLine(g: Grid)
    requires g.height > 0 && g.Valid()
    ensures AsStr(g) == Display(g) + "\n"
  {
    RowsTextJoin(g.rows);
    JoinSnoc(g.rows, "", '\n');
  }

  lemma {:induction false} MaxLenAll(ls: seq<string>, w: nat)
    requires |ls| > 0 && forall i :: 0 <= i < |ls| ==> ByteLen(ls[i]) == w
    ensures MaxLen(ls) == w
    decreases |ls|
  {
    if |ls| > 1 {
      MaxLenAll(ls[..|ls| - 1], w);
    }
  }

  /** The cells a canvas can hold and give back through its text form. */
  predicate PlainCell(c: char) {
    (c as int) < 0x80 && c != '\n' && c != '\r'
  }

  /** Every cell of the rows is a `PlainCell`. */
  predicate PlainRows(rows: seq<string>) {
    forall y, x :: 0 <= y < |rows| && 0 <= x < |rows[y]| ==> PlainCell(rows[y][x])
  }

  lemma PlainRow(rows: seq<string>, k: nat)
    requires PlainRows(rows) && k < |rows|
    ensures '\n' !in rows[k] && '\r' !in rows[k] && IsAscii(rows[k])
  {
    assert forall x :: 0 <= x < |rows[k]| ==> PlainCell(rows[k][x]);
  }

  /** The text of plain rows splits back into the rows and a final empty piece, and has no carriage return. */
  lemma AsStrPieces(rows: seq<string>)
    requires PlainRows(rows)
    ensures Split(RowsText(rows), '\n') == rows + [""]
    ensures '\r' !in RowsText(rows)
  {
    var parts := rows + [""];
    forall k | 0 <= k < |parts| ensures '\n' !in parts[k] && '\r' !in parts[k] {
      if k < |rows| {
        PlainRow(rows, k);
      }
    }
    RowsTextJoin(rows);
    SplitJoin(parts, '\n');
    JoinAvoids(parts, '\n', '\r');
  }

  lemma LinesOfAsStr(rows: seq<string>)
    requires PlainRows(rows)
    ensures Lines(RowsText(rows)) == rows
    ensures '\r' !in RowsText(rows)
  {
    AsStrPieces(rows);
    LinesPlain(RowsText(rows));
    assert (rows + [""])[..|rows|] == rows;
  }

  lemma MaxLenOfRows(t: Grid)
    requires t.Valid() && t.height > 0 && PlainRows(t.rows)
    ensures MaxLen(t.rows) == t.width
  {
    forall k | 0 <= k < t.height ensures ByteLen(t.rows[k]) == t.width {
      PlainRow(t.rows, k);
      ByteLenAscii(t.rows[k]);
    }
    MaxLenAll(t.rows, t.width);
  }

  lemma PaddedFull(t: Grid)
    requires t.Valid()
    ensures Padded(t.rows, t.width) == t
  {
    var p := Padded(t.rows, t.width);
    forall k | 0 <= k < t.height ensures p.rows[k] == t.rows[k] {
      assert Spaces(0) == "";
    }
  }

  /**
   * `as_str` and `From<&str>` are inverse on a canvas with rows whose cells
   * are ASCII other than line feed and carriage return.
   */
  lemma FromStrAsStr(t: Grid)
    requires t.Valid() && t.height > 0 && PlainRows(t.rows)
    ensures FromStr(AsStr(t)) == Some(t)
  {
    LinesOfAsStr(t.rows);
    MaxLenOfRows(t);
    FromStrLayout(AsStr(t));
    PaddedFull(t);
  }

  lemma FooBarSerialized()
    ensures Grid(2, 4, ["fo", "ob", "ar", "  "]).Serialize() == "foobar  "
  {
  }

  lemma OverwriteFooBar(base: string)
    requires |base| == 8 && forall i :: 0 <= i < 8 ==> base[i] == ' '
    ensures Overwrite(base, 0, "foobar") == "foobar  "
  {
  }

  /** "foobar" on a 2 x 4 canvas fills the first three rows, two characters each. */
  lemma InsertFooBar()
    ensures Insert(NewGrid(2, 4), "foobar") == Done(Grid(2, 4, ["fo", "ob", "ar", "  "]), 6)
  {
    var g := NewGrid(2, 4);
    SerializeNew(2, 4);
    InsertFlat(g, "foobar");
    OverwriteFooBar(g.Serialize());
    FooBarSerialized();
    SerializeInjective(Insert(g, "foobar").grid, Grid(2, 4, ["fo", "ob", "ar", "  "]));
  }

  lemma AsStrFooBar()
    ensures AsStr(Grid(2, 4, ["fo", "ob", "ar", "  "])) == "fo\nob\nar\n  \n"
  {
    assert RowsText(["fo"]) == "fo\n" by {
      assert ["fo"][..0] == [];
    }
    assert RowsText(["fo", "ob"]) == "fo\nob\n" by {
      assert ["fo", "ob"][..1] == ["fo"];
    }
    assert RowsText(["fo", "ob", "ar"]) == "fo\nob\nar\n" by {
      assert ["fo", "ob", "ar"][..2] == ["fo", "ob"];
    }
    assert RowsText(["fo", "ob", "ar", "  "]) == "fo\nob\nar\n  \n" by {
      assert ["fo", "ob", "ar", "  "][..3] == ["fo", "ob", "ar"];
    }
  }

  /** The example of src/canvas.rs: "foobar" on a 2 x 4 canvas dumps as "fo\nob\nar\n  \n". */
  lemma AsStrExample()
    ensures var r := Insert(NewGrid(2, 4), "foobar");
      r.Done? && AsStr(r.grid) == "fo\nob\nar\n  \n"
  {
    InsertFooBar();
    AsStrFooBar();
  }
}

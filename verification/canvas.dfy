/**
 * `Canvas` of src/canvas.rs as the mutable object it is: a fixed size and
 * the rows of characters, which `set` and `insert` update in place. Every
 * operation is proved against the value-level specification of
 * `CanvasGrid`, `CanvasInsert` and `CanvasText` through `Value()`.
 */
module CanvasObject {
  import opened Basics
  import opened Text
  import opened CanvasGrid
  import opened CanvasInsert
  import opened CanvasText

  class Canvas {
    const width: nat
    const height: nat
    var rows: seq<seq<char>>

    /** The canvas as a value, which is what `clone` hands out. */
    function Value(): Grid
      reads this
    {
      Grid(width, height, rows)
    }

    /** `height` rows of `width` characters. */
    predicate Valid()
      reads this
    {
      Value().Valid()
    }

    /** `Canvas::new`: `height` rows, each `width` spaces. */
    constructor (width: nat, height: nat)
      ensures Valid() && this.width == width && this.height == height
      ensures Value() == NewGrid(width, height)
    {
      var blank := seq(width, _ => ' ');
      var built: seq<seq<char>> := [];
      for y := 0 to height
        invariant built == seq(y, _ => blank)
      {
        built := built + [blank];
      }
      this.width := width;
      this.height := height;
      this.rows := built;
    }

    /** `set`: the source asserts `is_in(x, y)`. */
    method Set(x: nat, y: nat, c: char)
      requires Valid() && Value().IsIn(x, y)
      modifies this
      ensures Valid() && Value() == old(Value()).Set(x, y, c)
    {
      rows := rows[y := rows[y][x := c]];
    }

    /** `seti`: `set` at `i_to_xy(i)`, which the source asserts is a cell. */
    method SetI(i: nat, c: char)
      requires Valid() && Value().IsInI(i)
      requires Value().IsInI(i) ==> Value().IsIn(Value().IToXy(i).0, Value().IToXy(i).1)
      modifies this
      ensures Valid() && Value() == old(Value()).SetI(i, c)
    {
      var row := i / width;
      var col := i % height;
      Set(col, row, c);
    }

    /** `serialize`: every cell pushed row by row, left to right. */
    method Serialize() returns (buf: string)
      requires Valid()
      ensures buf == Value().Serialize()
    {
      buf := "";
      for y := 0 to height
        invariant buf == Flatten(rows[..y])
      {
        for x := 0 to width
          invariant buf == Flatten(rows[..y]) + rows[y][..x]
        {
          buf := buf + [rows[y][x]];
        }
        assert rows[y][..width] == rows[y];
        assert rows[..y + 1] == rows[..y] + [rows[y]];
        FlattenSnoc(rows[..y], rows[y]);
      }
      assert rows[..height] == rows;
    }

    /**
     * `insert`: the characters in order from the top-left corner; a newline
     * starts the next row, a full row wraps, and the insertion stops at the
     * first character below the last row. Returns the number of characters
     * placed. A character meeting a zero-width row makes the source's `set`
     * panic, which the precondition excludes.
     */
    method Insert(s: string) returns (placed: nat)
      requires Valid() && CanvasInsert.Insert(Value(), s).Done?
      modifies this
      ensures Valid()
      ensures CanvasInsert.Insert(old(Value()), s) == Done(Value(), placed)
    {
      ghost var want := CanvasInsert.Insert(Value(), s);
      var x, y := 0, 0;
      placed := 0;
      var k := 0;
      while k < |s|
        invariant 0 <= k <= |s| && Valid()
        invariant InsertFrom(Value(), s[k..], x, y, placed) == want
      {
        var c := s[k];
        assert s[k..][0] == c && s[k..][1..] == s[k + 1..];
        if c == '\n' {
          y := y + 1;
          x := 0;
          k := k + 1;
          continue;
        }
        if x >= width {
          y := y + 1;
          x := 0;
        }
        if y >= height {
          break;
        }
        Set(x, y, c);
        x := x + 1;
        placed := placed + 1;
        k := k + 1;
      }
    }

    /** `as_str`: every row followed by a line feed. */
    method AsStr() returns (buf: string)
      requires Valid()
      ensures buf == CanvasText.AsStr(Value())
    {
      buf := "";
      for y := 0 to height
        invariant buf == RowsText(rows[..y])
      {
        for x := 0 to width
          invariant buf == RowsText(rows[..y]) + rows[y][..x]
        {
          buf := buf + [rows[y][x]];
        }
        assert rows[y][..width] == rows[y];
        assert rows[..y + 1][..y] == rows[..y];
        buf := buf + "\n";
      }
      assert rows[..height] == rows;
    }

    /** `Display`: the rows, with a line feed after every row but the last. */
    method Display() returns (buf: string)
      requires Valid()
      ensures buf == CanvasText.Display(Value())
    {
      buf := "";
      for y := 0 to height
        invariant buf == if y == 0 then "" else Join(rows[..y], '\n') + (if y < height then "\n" else "")
      {
        ghost var before := buf;
        for x := 0 to width
          invariant buf == before + rows[y][..x]
        {
          buf := buf + [rows[y][x]];
        }
        assert rows[y][..width] == rows[y];
        assert rows[..y + 1] == rows[..y] + [rows[y]];
        if y == 0 {
          assert rows[..1] == [rows[0]];
        } else {
          JoinSnoc(rows[..y], rows[y], '\n');
        }
        if y < height - 1 {
          buf := buf + "\n";
        }
      }
      assert rows[..height] == rows;
    }
  }

  /**
   * `From<&str>`: a blank canvas as wide as the longest line with a row per
   * line, into which the text is inserted. The source panics when that
   * insertion does (see `CanvasText.FromStrCarriageReturnPanics`).
   */
  method FromText(s: string) returns (c: Canvas)
    requires FromStr(s).Some?
    ensures c.Valid() && FromStr(s) == Some(c.Value())
  {
    var ls := Lines(s);
    c := new Canvas(MaxLen(ls), |ls|);
    var _ := c.Insert(s);
  }
}

/**
 * The wrapping bulk loader of src/canvas.rs (`insert_from_iter` started at
 * the origin with no transparency, which is what `insert` does), as a
 * function on canvas values, with the properties the in-place loop of the
 * `Canvas` class is proved against.
 */
module CanvasInsert {
  import opened CanvasGrid

  /**
   * The outcome of an insertion: the filled canvas and the number of
   * characters placed, or the panic of `set` on an empty row, which happens
   * when the canvas has width 0 and a character lands on a row that exists.
   */
  datatype Insertion = Done(grid: Grid, placed: nat) | SetOutOfBounds

  function Min(a: nat, b: nat): nat {
    if a <= b then a else b
  }

  /**
   * The loop of `insert_from_iter` from cursor `(x, y)` with `placed`
   * characters placed so far. A newline moves to the start of the next row
   * without counting; a character met past the end of a row first wraps to
   * the next row; a character met below the last row stops the loop.
   */
  function InsertFrom(g: Grid, s: string, x: nat, y: nat, placed: nat): (r: Insertion)
    requires g.Valid()
    ensures r.Done? ==> r.grid.Valid() && r.grid.width == g.width && r.grid.height == g.height
    ensures r.Done? ==> placed <= r.placed <= placed + |s|
    decreases |s|
  {
    if |s| == 0 then Done(g, placed)
    else if s[0] == '\n' then InsertFrom(g, s[1..], 0, y + 1, placed)
    else
      var x1 := if x >= g.width then 0 else x;
      var y1 := if x >= g.width then y + 1 else y;
      if y1 >= g.height then Done(g, placed)
      else if x1 >= g.width then SetOutOfBounds
      else InsertFrom(g.Set(x1, y1, s[0]), s[1..], x1 + 1, y1, placed + 1)
  }

  /** `insert`: load `s` from the top-left corner. */
  function Insert(g: Grid, s: string): Insertion
    requires g.Valid()
  {
    InsertFrom(g, s, 0, 0, 0)
  }

  predicate AllNewlines(s: string) {
    forall k :: 0 <= k < |s| ==> s[k] == '\n'
  }

  /**
   * `base` with `t` written over it from position `pos`, cut off at the end
   * of `base`.
   */
  function Overwrite(base: string, pos: nat, t: string): (r: string)
    ensures |r| == |base|
    ensures forall i :: 0 <= i < |base| ==> r[i] == (if pos <= i < pos + |t| then t[i - pos] else base[i])
  {
    if pos >= |base| then base
    else
      var n := Min(|t|, |base| - pos);
      base[..pos] + t[..n] + base[pos + n..]
  }

  /** How many characters of a `len`-long text fit from position `pos` into `size` cells. */
  function Fitting(size: nat, pos: nat, len: nat): nat {
    if pos >= size then 0 else Min(len, size - pos)
  }

  // ---------------------------------------------------------------------------
  // Counting

  /** Newlines move the cursor but place nothing and change nothing. */
  lemma {:induction false} InsertNewlines(g: Grid, s: string, x: nat, y: nat, placed: nat)
    requires g.Valid() && AllNewlines(s)
    ensures InsertFrom(g, s, x, y, placed) == Done(g, placed)
    decreases |s|
  {
    if |s| > 0 {
      InsertNewlines(g, s[1..], 0, y + 1, placed);
    }
  }

  /**
   * The number of characters placed never exceeds the number of cells: each
   * one is placed on a distinct cell reached in row-major order.
   */
  lemma {:induction false} InsertFromBound(g: Grid, s: string, x: nat, y: nat, placed: nat)
    requires g.Valid() && x <= g.width
    requires placed <= y * g.width + x && placed <= g.width * g.height
    ensures InsertFrom(g, s, x, y, placed).Done? ==> InsertFrom(g, s, x, y, placed).placed <= g.width * g.height
    decreases |s|
  {
    if |s| > 0 {
      if s[0] == '\n' {
        MulSucc(y, g.width);
        InsertFromBound(g, s[1..], 0, y + 1, placed);
      } else {
        var x1 := if x >= g.width then 0 else x;
        var y1 := if x >= g.width then y + 1 else y;
        MulSucc(y, g.width);
        if y1 < g.height && x1 < g.width {
          MulMono(y1 + 1, g.height, g.width);
          MulSucc(y1, g.width);
          InsertFromBound(g.Set(x1, y1, s[0]), s[1..], x1 + 1, y1, placed + 1);
        }
      }
    }
  }

  /** `insert` returns at most `width * height`. */
  lemma InsertBound(g: Grid, s: string)
    requires g.Valid()
    ensures Insert(g, s).Done? ==> Insert(g, s).placed <= g.width * g.height
  {
    InsertFromBound(g, s, 0, 0, 0);
  }

  /** The number of newlines at the front of `s`. */
  function LeadingNewlines(s: string): (k: nat)
    ensures k <= |s|
    ensures forall j :: 0 <= j < k ==> s[j] == '\n'
    ensures k < |s| ==> s[k] != '\n'
    decreases |s|
  {
    if |s| > 0 && s[0] == '\n' then 1 + LeadingNewlines(s[1..]) else 0
  }

  /**
   * On a canvas of width 0 the first character that is not a newline wraps
   * to the row below the cursor; insertion panics exactly when that row
   * exists, and otherwise ends having changed nothing.
   */
  lemma {:induction false} InsertZeroWidth(g: Grid, s: string, x: nat, y: nat, placed: nat)
    requires g.Valid() && g.width == 0
    ensures var k := LeadingNewlines(s);
      InsertFrom(g, s, x, y, placed).SetOutOfBounds? <==> k < |s| && y + k + 1 < g.height
    ensures InsertFrom(g, s, x, y, placed).Done? ==> InsertFrom(g, s, x, y, placed) == Done(g, placed)
    decreases |s|
  {
    if |s| > 0 && s[0] == '\n' {
      InsertZeroWidth(g, s[1..], 0, y + 1, placed);
    }
  }

  /** Insertion never panics on a canvas with columns, nor on one without rows. */
  lemma {:induction false} InsertFromTotal(g: Grid, s: string, x: nat, y: nat, placed: nat)
    requires g.Valid() && (g.width > 0 || g.height == 0)
    ensures InsertFrom(g, s, x, y, placed).Done?
    decreases |s|
  {
    if |s| > 0 {
      if s[0] == '\n' {
        InsertFromTotal(g, s[1..], 0, y + 1, placed);
      } else {
        var x1 := if x >= g.width then 0 else x;
        var y1 := if x >= g.width then y + 1 else y;
        if y1 < g.height {
          InsertFromTotal(g.Set(x1, y1, s[0]), s[1..], x1 + 1, y1, placed + 1);
        }
      }
    }
  }

  // ---------------------------------------------------------------------------
  // Text without line breaks

  lemma OverwriteStep(base: string, pos: nat, t: string)
    requires pos < |base| && |t| > 0
    ensures Overwrite(base[pos := t[0]], pos + 1, t[1..]) == Overwrite(base, pos, t)
    ensures Fitting(|base|, pos, |t|) == 1 + Fitting(|base|, pos + 1, |t| - 1)
  {
  }

  /**
   * On a canvas with columns a cursor past the end of a row behaves as the
   * start of the next row, unless a newline comes first.
   */
  lemma WrapCursor(g: Grid, s: string, y: nat, placed: nat)
    requires g.Valid() && g.width > 0 && |s| > 0 && s[0] != '\n'
    ensures InsertFrom(g, s, g.width, y, placed) == InsertFrom(g, s, 0, y + 1, placed)
  {
  }

  /**
   * Text without newlines (followed by nothing but newlines) fills the cells
   * in row-major order from the cursor, `y * width + x`, and is cut off at
   * the last cell: exactly the characters that fit are placed, overwriting
   * the serialization from that position, and every other cell keeps its
   * character.
   */
  lemma {:induction false} InsertRun(g: Grid, s: string, tail: string, x: nat, y: nat, placed: nat)
    requires g.Valid() && g.width > 0 && x <= g.width
    requires '\n' !in s && AllNewlines(tail)
    ensures var r := InsertFrom(g, s + tail, x, y, placed);
      var pos := y * g.width + x;
      && r.Done?
      && r.placed == placed + Fitting(g.width * g.height, pos, |s|)
      && r.grid.Serialize() == Overwrite(g.Serialize(), pos, s)
    decreases |s|, if x == g.width then 2 else 1
  {
    var w := g.width;
    if |s| == 0 {
      assert s + tail == tail;
      InsertNewlines(g, tail, x, y, placed);
    } else if x == w {
      assert (s + tail)[0] == s[0];
      WrapCursor(g, s + tail, y, placed);
      MulSucc(y, w);
      InsertRun(g, s, tail, 0, y + 1, placed);
    } else if y >= g.height {
      MulMono(g.height, y, w);
      assert (s + tail)[0] == s[0];
    } else {
      InsertRunStep(g, s, tail, x, y, placed);
    }
  }

  /** With the cursor inside the canvas, a character other than a newline is placed there. */
  lemma InsertPlaces(g: Grid, s: string, x: nat, y: nat, placed: nat)
    requires g.Valid() && g.IsIn(x, y) && |s| > 0 && s[0] != '\n'
    ensures InsertFrom(g, s, x, y, placed) == InsertFrom(g.Set(x, y, s[0]), s[1..], x + 1, y, placed + 1)
  {
  }

  lemma {:induction false} InsertRunStep(g: Grid, s: string, tail: string, x: nat, y: nat, placed: nat)
    requires g.Valid() && g.IsIn(x, y)
    requires '\n' !in s && AllNewlines(tail) && |s| > 0
    ensures var r := InsertFrom(g, s + tail, x, y, placed);
      var pos := y * g.width + x;
      && r.Done?
      && r.placed == placed + Fitting(g.width * g.height, pos, |s|)
      && r.grid.Serialize() == Overwrite(g.Serialize(), pos, s)
    decreases |s|, 0
  {
    var pos := y * g.width + x;
    var g1 := g.Set(x, y, s[0]);
    var base := g.Serialize();
    assert (s + tail)[0] == s[0] && (s + tail)[1..] == s[1..] + tail;
    InsertPlaces(g, s + tail, x, y, placed);
    var r := InsertFrom(g1, s[1..] + tail, x + 1, y, placed + 1);
    assert InsertFrom(g, s + tail, x, y, placed) == r;
    SerializeSet(g, x, y, s[0]);
    assert g1.Serialize() == base[pos := s[0]];
    InsertRun(g1, s[1..], tail, x + 1, y, placed + 1);
    assert y * g1.width + (x + 1) == pos + 1;
    assert r.Done? && r.placed == placed + 1 + Fitting(|base|, pos + 1, |s| - 1);
    assert r.grid.Serialize() == Overwrite(base[pos := s[0]], pos + 1, s[1..]);
    OverwriteStep(base, pos, s);
  }

  /** `insert` of newline-free text: the first `min(|s|, width * height)` cells, in row-major order. */
  lemma InsertFlat(g: Grid, s: string)
    requires g.Valid() && g.width > 0 && '\n' !in s
    ensures Insert(g, s).Done?
    ensures Insert(g, s).placed == Min(|s|, g.width * g.height)
    ensures Insert(g, s).grid.Serialize() == Overwrite(g.Serialize(), 0, s)
  {
    assert s + "" == s;
    InsertRun(g, s, "", 0, 0, 0);
  }

  /**
   * `serialize` and `insert` are inverse: inserting the serialization of a
   * canvas without newline cells (and any trailing newlines, as the canvas
   * message carries one) into a blank canvas of the same size rebuilds it
   * and places every cell.
   */
  lemma InsertSerialized(t: Grid, tail: string)
    requires t.Valid() && '\n' !in t.Serialize() && AllNewlines(tail)
    ensures Insert(NewGrid(t.width, t.height), t.Serialize() + tail) == Done(t, t.width * t.height)
  {
    var blank := NewGrid(t.width, t.height);
    if t.width == 0 {
      assert t.Serialize() + tail == tail;
      InsertNewlines(blank, tail, 0, 0, 0);
      GridExt(blank, t);
    } else {
      InsertRun(blank, t.Serialize(), tail, 0, 0, 0);
      var r := Insert(blank, t.Serialize() + tail);
      assert r.grid.Serialize() == t.Serialize();
      SerializeInjective(r.grid, t);
    }
  }

  /** The example of src/canvas.rs on a 2 x 2 canvas: "ABCDEFGH" is cut to A B / C D. */
  lemma InsertExampleSmall()
    ensures var r := Insert(NewGrid(2, 2), "ABCDEFGH");
      && r.Done? && r.placed == 4
      && r.grid.Get(0, 0) == 'A' && r.grid.Get(1, 0) == 'B'
      && r.grid.Get(0, 1) == 'C' && r.grid.Get(1, 1) == 'D'
  {
    var g := NewGrid(2, 2);
    InsertFlat(g, "ABCDEFGH");
    var t := Insert(g, "ABCDEFGH").grid;
    SerializeAt(t, 0, 0);
    SerializeAt(t, 1, 0);
    SerializeAt(t, 0, 1);
    SerializeAt(t, 1, 1);
  }

  /** The example of src/canvas.rs on a 3 x 3 canvas: all 8 placed, the last cell stays blank. */
  lemma InsertExampleLarge()
    ensures var r := Insert(NewGrid(3, 3), "ABCDEFGH");
      && r.Done? && r.placed == 8
      && r.grid.Get(0, 0) == 'A' && r.grid.Get(2, 0) == 'C'
      && r.grid.Get(1, 2) == 'H' && r.grid.Get(2, 2) == ' '
  {
    var g := NewGrid(3, 3);
    SerializeNew(3, 3);
    InsertFlat(g, "ABCDEFGH");
    var t := Insert(g, "ABCDEFGH").grid;
    SerializeAt(t, 0, 0);
    SerializeAt(t, 2, 0);
    SerializeAt(t, 1, 2);
    SerializeAt(t, 2, 2);
  }

  /** The example of src/canvas.rs on a 4 x 2 canvas: the text fills it exactly. */
  lemma InsertExampleJustRight()
    ensures var r := Insert(NewGrid(4, 2), "ABCDEFGH");
      && r.Done? && r.placed == 8
      && r.grid.Get(0, 0) == 'A' && r.grid.Get(2, 0) == 'C' && r.grid.Get(3, 1) == 'H'
  {
    var g := NewGrid(4, 2);
    InsertFlat(g, "ABCDEFGH");
    var t := Insert(g, "ABCDEFGH").grid;
    SerializeAt(t, 0, 0);
    SerializeAt(t, 2, 0);
    SerializeAt(t, 3, 1);
  }
}

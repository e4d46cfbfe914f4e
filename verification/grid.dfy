/**
 * The canvas of src/canvas.rs as a value: a fixed `width x height` grid of
 * characters stored row by row. `Grid` is what a `Canvas` clone carries (a
 * canvas message holds one); the functions here are the specification the
 * in-place `Canvas` class is proved against.
 */
module CanvasGrid {

  datatype Grid = Grid(width: nat, height: nat, rows: seq<seq<char>>) {

    /** `height` rows of `width` characters each. */
    predicate Valid() {
      |rows| == height && forall y :: 0 <= y < |rows| ==> |rows[y]| == width
    }

    /** `is_in`: the coordinate names a cell. */
    predicate IsIn(x: nat, y: nat) {
      x < width && y < height
    }

    /** `is_in_i`: the flat index is below the number of cells. */
    predicate IsInI(i: nat) {
      i < width * height
    }

    /** `get`, for an in-bounds coordinate (the source asserts `is_in`). */
    function Get(x: nat, y: nat): char
      requires Valid() && IsIn(x, y)
    {
      rows[y][x]
    }

    /** `set`: the cell at `(x, y)` becomes `c`; the size and every other cell stay. */
    function Set(x: nat, y: nat, c: char): (g: Grid)
      requires Valid() && IsIn(x, y)
      ensures g.Valid() && g.width == width && g.height == height
      ensures g.Get(x, y) == c
      ensures forall x', y' :: IsIn(x', y') && (x' != x || y' != y) ==> g.Get(x', y') == Get(x', y')
    {
      Grid(width, height, rows[y := rows[y][x := c]])
    }

    /**
     * `i_to_xy` as written: the row is `i / width` but the column is
     * `i % height`, so this is the row-major inverse only on square canvases.
     */
    function IToXy(i: nat): (nat, nat)
      requires width > 0 && height > 0
    {
      (i % height, i / width)
    }

    /** The row-major inverse of `i = y * width + x` that `i_to_xy` is evidently meant to be. */
    function RowMajorXy(i: nat): (xy: (nat, nat))
      requires width > 0
      ensures xy.0 < width
      ensures xy.1 * width + xy.0 == i
    {
      (i % width, i / width)
    }

    /** `geti`: `get` at `i_to_xy(i)`; the source asserts both `is_in_i(i)` and, inside `get`, `is_in`. */
    function GetI(i: nat): char
      requires Valid() && IsInI(i)
      requires IsInI(i) ==> IsIn(IToXy(i).0, IToXy(i).1)
    {
      var (x, y) := IToXy(i);
      Get(x, y)
    }

    /** `seti`: `set` at `i_to_xy(i)`; the cell `i_to_xy(i)` names becomes `c` and every other cell stays. */
    function SetI(i: nat, c: char): (g: Grid)
      requires Valid() && IsInI(i)
      requires IsInI(i) ==> IsIn(IToXy(i).0, IToXy(i).1)
      ensures g.Valid() && g.width == width && g.height == height
      ensures g.GetI(i) == c
      ensures forall x: nat, y: nat :: g.IsIn(x, y) ==> g.Get(x, y) == (if (x, y) == IToXy(i) then c else Get(x, y))
    {
      var (x, y) := IToXy(i);
      Set(x, y, c)
    }

    /** `serialize`: the rows concatenated top to bottom, without separators. */
    function Serialize(): (s: string)
      requires Valid()
      ensures |s| == width * height
    {
      FlattenLength(rows, width);
      Flatten(rows)
    }
  }

  /** `Canvas::new`: every cell is a space. */
  function NewGrid(width: nat, height: nat): (g: Grid)
    ensures g.Valid() && g.width == width && g.height == height
    ensures forall x, y :: g.IsIn(x, y) ==> g.Get(x, y) == ' '
  {
    Grid(width, height, seq(height, _ => seq(width, _ => ' ')))
  }

  function Flatten(rows: seq<seq<char>>): string
    decreases |rows|
  {
    if |rows| == 0 then "" else rows[0] + Flatten(rows[1..])
  }

  lemma {:induction false} FlattenLength(rows: seq<seq<char>>, w: nat)
    requires forall y :: 0 <= y < |rows| ==> |rows[y]| == w
    ensures |Flatten(rows)| == |rows| * w
    decreases |rows|
  {
    if |rows| > 0 {
      FlattenLength(rows[1..], w);
      MulSucc(|rows| - 1, w);
    }
  }

  lemma {:induction false} FlattenIndex(rows: seq<seq<char>>, w: nat, x: nat, y: nat)
    requires forall y :: 0 <= y < |rows| ==> |rows[y]| == w
    requires x < w && y < |rows|
    ensures y * w + x < |Flatten(rows)|
    ensures Flatten(rows)[y * w + x] == rows[y][x]
    decreases |rows|
  {
    FlattenLength(rows, w);
    MulMono(y + 1, |rows|, w);
    MulSucc(y, w);
    if y > 0 {
      FlattenIndex(rows[1..], w, x, y - 1);
      MulSucc(y - 1, w);
      assert rows[1..][y - 1] == rows[y];
    }
  }

  /** Two valid grids of the same size with the same cells are equal. */
  lemma GridExt(a: Grid, b: Grid)
    requires a.Valid() && b.Valid() && a.width == b.width && a.height == b.height
    requires forall x, y :: a.IsIn(x, y) ==> a.Get(x, y) == b.Get(x, y)
    ensures a == b
  {
    forall y | 0 <= y < a.height ensures a.rows[y] == b.rows[y] {
      forall x | 0 <= x < a.width ensures a.rows[y][x] == b.rows[y][x] {
        assert a.IsIn(x, y);
      }
    }
  }

  // ---------------------------------------------------------------------------
  // Row-major arithmetic

  lemma MulMono(a: nat, b: nat, w: nat)
    requires a <= b
    ensures a * w <= b * w
  {
  }

  lemma MulSucc(a: nat, w: nat)
    ensures (a + 1) * w == a * w + w
  {
  }

  /** Quotient and remainder are determined by `n = y * w + x` with `x < w`. */
  lemma DivModUnique(n: nat, w: nat, x: nat, y: nat)
    requires 0 < w && x < w && n == y * w + x
    ensures n / w == y && n % w == x
  {
    var q, r := n / w, n % w;
    assert n == q * w + r;
    if q < y {
      MulMono(q + 1, y, w);
      MulSucc(q, w);
    } else if y < q {
      MulMono(y + 1, q, w);
      MulSucc(y, w);
    }
  }

  /** Distinct in-bounds cells have distinct row-major positions. */
  lemma FlatInjective(w: nat, x1: nat, y1: nat, x2: nat, y2: nat)
    requires x1 < w && x2 < w && y1 * w + x1 == y2 * w + x2
    ensures x1 == x2 && y1 == y2
  {
    DivModUnique(y1 * w + x1, w, x1, y1);
    DivModUnique(y2 * w + x2, w, x2, y2);
  }

  // ---------------------------------------------------------------------------
  // Properties of the flat-index helpers

  /** The corrected mapping inverts `y * width + x` on every in-bounds cell. */
  lemma RowMajorXyInverts(g: Grid, x: nat, y: nat)
    requires g.width > 0 && x < g.width
    ensures g.RowMajorXy(y * g.width + x) == (x, y)
  {
    DivModUnique(y * g.width + x, g.width, x, y);
  }

  /**
   * `i_to_xy` agrees with the row-major inverse exactly when the canvas is
   * square: everywhere when it is, and on some in-bounds index when it is not.
   */
  lemma IToXyIsRowMajorIffSquare(g: Grid)
    requires g.width > 0 && g.height > 0
    ensures g.width == g.height ==> forall i :: g.IToXy(i) == g.RowMajorXy(i)
    ensures g.width != g.height ==> exists i :: g.IsInI(i) && g.IToXy(i) != g.RowMajorXy(i)
  {
    var w, h := g.width, g.height;
    if h < w {
      MulMono(1, h, w);
      DivModUnique(h, h, 0, 1);
      DivModUnique(h, w, h, 0);
      assert g.IsInI(h) && g.IToXy(h).0 != g.RowMajorXy(h).0;
    } else if w < h {
      MulMono(2, h, w);
      DivModUnique(w, h, w, 0);
      DivModUnique(w, w, 0, 1);
      assert g.IsInI(w) && g.IToXy(w).0 != g.RowMajorXy(w).0;
    }
  }

  /** On a square canvas `geti` reads the cell at row-major position `i`. */
  lemma GetIOnSquare(g: Grid, x: nat, y: nat)
    requires g.Valid() && g.width == g.height && g.IsIn(x, y)
    ensures g.IsInI(y * g.width + x)
    ensures g.IToXy(y * g.width + x) == (x, y)
    ensures g.GetI(y * g.width + x) == g.Get(x, y)
  {
    MulMono(y + 1, g.height, g.width);
    MulSucc(y, g.width);
    RowMajorXyInverts(g, x, y);
  }

  /**
   * On a 3 x 2 canvas index 2 names cell (2, 0) in row-major order, but
   * `i_to_xy(2)` is (0, 0): `seti(2, c)` overwrites the top-left corner.
   */
  lemma IToXyWrongOnThreeByTwo()
    ensures var g := NewGrid(3, 2);
      && g.IToXy(2) == (0, 0)
      && g.RowMajorXy(2) == (2, 0)
      && g.SetI(2, 'X').Get(0, 0) == 'X'
      && g.SetI(2, 'X').Get(2, 0) == ' '
  {
  }

  /** A serialized canvas is as long as the canvas has cells and lists them in row-major order. */
  lemma SerializeAt(g: Grid, x: nat, y: nat)
    requires g.Valid() && g.IsIn(x, y)
    ensures y * g.width + x < |g.Serialize()|
    ensures g.Serialize()[y * g.width + x] == g.Get(x, y)
  {
    FlattenIndex(g.rows, g.width, x, y);
  }

  /** `set` changes exactly one character of the serialization, the one at `y * width + x`. */
  lemma SerializeSet(g: Grid, x: nat, y: nat, c: char)
    requires g.Valid() && g.IsIn(x, y)
    ensures y * g.width + x < |g.Serialize()|
    ensures g.Set(x, y, c).Serialize() == g.Serialize()[y * g.width + x := c]
  {
    FlattenIndex(g.rows, g.width, x, y);
    FlattenUpdate(g.rows, g.width, x, y, c);
  }

  /** A fresh canvas serializes to spaces only. */
  lemma SerializeNew(w: nat, h: nat)
    ensures forall i :: 0 <= i < |NewGrid(w, h).Serialize()| ==> NewGrid(w, h).Serialize()[i] == ' '
  {
    FlattenFilled(NewGrid(w, h).rows, ' ');
  }

  /** Two valid canvases of the same size with the same serialization are equal. */
  lemma SerializeInjective(a: Grid, b: Grid)
    requires a.Valid() && b.Valid() && a.width == b.width && a.height == b.height
    requires a.Serialize() == b.Serialize()
    ensures a == b
  {
    forall x, y | a.IsIn(x, y) ensures a.Get(x, y) == b.Get(x, y) {
      SerializeAt(a, x, y);
      SerializeAt(b, x, y);
    }
    GridExt(a, b);
  }

  lemma {:induction false} FlattenUpdate(rows: seq<seq<char>>, w: nat, x: nat, y: nat, c: char)
    requires forall y :: 0 <= y < |rows| ==> |rows[y]| == w
    requires x < w && y < |rows|
    ensures y * w + x < |Flatten(rows)|
    ensures Flatten(rows[y := rows[y][x := c]]) == Flatten(rows)[y * w + x := c]
    decreases |rows|
  {
    FlattenIndex(rows, w, x, y);
    var rows' := rows[y := rows[y][x := c]];
    assert rows'[1..] == if y == 0 then rows[1..] else rows[1..][y - 1 := rows[y][x := c]];
    if y > 0 {
      FlattenUpdate(rows[1..], w, x, y - 1, c);
      MulSucc(y - 1, w);
    }
  }

  lemma {:induction false} FlattenFilled(rows: seq<seq<char>>, c: char)
    requires forall y, x :: 0 <= y < |rows| && 0 <= x < |rows[y]| ==> rows[y][x] == c
    ensures forall i :: 0 <= i < |Flatten(rows)| ==> Flatten(rows)[i] == c
    decreases |rows|
  {
    if |rows| > 0 {
      FlattenFilled(rows[1..], c);
      assert forall y, x :: 0 <= y < |rows[1..]| && 0 <= x < |rows[1..][y]| ==> rows[1..][y][x] == c by {
        forall y, x | 0 <= y < |rows[1..]| && 0 <= x < |rows[1..][y]| ensures rows[1..][y][x] == c {
          assert rows[1..][y] == rows[y + 1];
        }
      }
    }
  }

  /** Flattening a row-list extended by one row appends that row. */
  lemma {:induction false} FlattenSnoc(rows: seq<seq<char>>, row: seq<char>)
    ensures Flatten(rows + [row]) == Flatten(rows) + row
    decreases |rows|
  {
    if |rows| == 0 {
      assert [] + [row] == [row];
    } else {
      assert (rows + [row])[1..] == rows[1..] + [row];
      FlattenSnoc(rows[1..], row);
    }
  }
}

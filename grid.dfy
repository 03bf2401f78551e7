/** The tile grid of one floor (BuildGen/Common/Data/FloorplanGrid.cs): a flat array of tile types, row by
    row, `stride` tiles per row. `GridView` is the value a grid holds at one moment, and carries the
    grid's meaning; the `FloorplanGrid` class owns the array and its loops are proved against the view. */
module Grids {
  import opened Wrappers
  import opened Points
  import opened Rectangles

  datatype FloorTileType = Unavailable | Vacant | Passage | Room | Other

  lemma MulBound(k: int, s: int)
    requires s > 0
    ensures k >= 1 ==> k * s >= s
    ensures k <= -1 ==> k * s <= -s
  {
  }

  /** Euclidean division by a positive stride has a unique quotient and remainder. */
  lemma DivModOf(x: int, y: int, s: int)
    requires 0 <= x < s
    ensures (x + y * s) / s == y && (x + y * s) % s == x
  {
    var n := x + y * s;
    var q, m := n / s, n % s;
    assert 0 <= m < s;
    assert s * q + m == n;
    assert (q - y) * s == x - m by {
      assert (q - y) * s == q * s - y * s;
    }
    MulBound(q - y, s);
  }

  /** A position in the first `rows` full rows has an index below `rows * s`. */
  lemma IndexBelow(x: int, y: int, s: int, count: nat)
    requires 0 <= x < s && 0 <= y < count / s
    ensures 0 <= x + y * s < count
  {
    var r := count / s;
    assert (y + 1) * s <= r * s by {
      assert (r - (y + 1)) * s >= 0;
    }
    assert r * s <= count;
  }

  /** The tiles' contents at one moment, with the stride of the grid. */
  datatype GridView = GridView(tiles: seq<FloorTileType>, stride: nat)
  {
    /** What the constructor establishes: `tileCount % tileStride == 0` with a positive stride. */
    predicate Valid()
    {
      stride > 0 && |tiles| % stride == 0
    }

    function Columns(): nat { stride }

    function Rows(): nat { if stride == 0 then 0 else |tiles| / stride }

    predicate InBounds(x: int, y: int)
    {
      0 <= x < Columns() && 0 <= y < Rows()
    }

    /** -1 out of bounds, else `x + y * stride`, whose remainder and quotient give the position back. */
    function ToIndex(x: int, y: int): (r: int)
      ensures r == -1 <==> !InBounds(x, y)
      ensures r != -1 ==> 0 <= r < |tiles| && r % stride == x && r / stride == y
    {
      if x >= Columns() || x < 0 || y >= Rows() || y < 0 then -1
      else
        DivModOf(x, y, stride);
        IndexBelow(x, y, stride, |tiles|);
        x + y * stride
    }

    /** ArgumentOutOfRangeException outside [0, TileCount); otherwise the column and row of the index. */
    function ToPosition(index: int): (r: Result<Point>)
      ensures r.Throws? <==> index < 0 || index >= |tiles| || stride == 0
      ensures r.Ok? ==> r.value.X == index % stride && r.value.Y == index / stride
    {
      if index < 0 || index >= |tiles| then Throws(ArgumentOutOfRangeException)
      else if stride == 0 then Throws(DivideByZeroException)
      else
        var m := index % stride;
        assert index - m == 0 + (index / stride) * stride;
        DivModOf(0, index / stride, stride);
        Ok(Point(m, (index - m) / stride))
    }

    /** The tile at an in-bounds position. */
    function TileAt(x: int, y: int): FloorTileType
      requires InBounds(x, y)
    {
      tiles[ToIndex(x, y)]
    }

    predicate CheckType(x: int, y: int, state: FloorTileType)
    {
      var n := ToIndex(x, y);
      if n == -1 then false else tiles[n] == state
    }

    predicate CheckUnavailable(x: int, y: int)
    {
      var n := ToIndex(x, y);
      n == -1 || tiles[n] == Unavailable
    }

    /** Every position of [x, xx) x [y, yy) is in bounds and of type `state`. */
    predicate AreaState(x: int, y: int, xx: int, yy: int, state: FloorTileType)
    {
      forall nx, ny :: x <= nx < xx && y <= ny < yy ==> CheckType(nx, ny, state)
    }

    /** The single-tile `Set`: a no-op out of bounds. */
    function SetTile(x: int, y: int, state: FloorTileType): (r: GridView)
      ensures r.stride == stride && |r.tiles| == |tiles|
    {
      var n := ToIndex(x, y);
      if n == -1 then this else this.(tiles := tiles[n := state])
    }

    /** The range `Set`: every in-bounds tile of [x, xx) x [y, yy) becomes `state`. */
    function SetArea(x: int, y: int, xx: int, yy: int, state: FloorTileType): (r: GridView)
      requires Valid()
      ensures r.stride == stride && |r.tiles| == |tiles|
    {
      this.(tiles := seq(|tiles|, i requires 0 <= i < |tiles| =>
        if Rect(x, y, xx, yy).InCell(i % stride, i / stride) then state else tiles[i]))
    }

    /** Whether the run scan counts the tile at (x, y): `CheckType` for `FindRectangles`, its negation for
        `FindRectanglesExclusive`. */
    predicate Selected(t: FloorTileType, exclusive: bool, x: int, y: int)
    {
      CheckType(x, y, t) != exclusive
    }

    /** What the scan of column `x` adds from row `y` on, with the current run starting at `yStart` (-1:
        no run open): a run ends at the first unselected tile and at the bottom row. */
    function Runs(t: FloorTileType, exclusive: bool, x: int, y: nat, yStart: int): seq<Rectangle>
      decreases Rows() - y
    {
      if y >= Rows() then
        if yStart != -1 then [Rect(x, yStart, x + 1, Rows())] else []
      else if !Selected(t, exclusive, x, y) then
        if yStart != -1 then [Rect(x, yStart, x + 1, y)] + Runs(t, exclusive, x, y + 1, -1)
        else Runs(t, exclusive, x, y + 1, -1)
      else
        Runs(t, exclusive, x, y + 1, if yStart == -1 then y else yStart)
    }

    /** The runs of columns `x` to `Columns() - 1`, column by column. */
    function Cols(t: FloorTileType, exclusive: bool, x: nat): seq<Rectangle>
      decreases Columns() - x
    {
      if x >= Columns() then [] else Runs(t, exclusive, x, 0, -1) + Cols(t, exclusive, x + 1)
    }

    /** `FindRectangles(t)` (exclusive = false) and `FindRectanglesExclusive(t)` (exclusive = true). */
    function FindRects(t: FloorTileType, exclusive: bool): seq<Rectangle>
    {
      Cols(t, exclusive, 0)
    }

    /** `r` is a maximal vertical run of selected tiles, one column wide. */
    ghost predicate IsRun(t: FloorTileType, exclusive: bool, r: Rectangle)
    {
      r.XX() == r.X() + 1 && 0 <= r.X() < Columns() && 0 <= r.Y() < r.YY() <= Rows() &&
      (forall c :: r.Y() <= c < r.YY() ==> Selected(t, exclusive, r.X(), c)) &&
      (r.Y() == 0 || !Selected(t, exclusive, r.X(), r.Y() - 1)) &&
      (r.YY() == Rows() || !Selected(t, exclusive, r.X(), r.YY()))
    }
  }

  /** A grid of `count` Vacant tiles. */
  function Blank(count: nat, stride: nat): (g: GridView)
    ensures |g.tiles| == count && g.stride == stride
    ensures forall i :: 0 <= i < count ==> g.tiles[i] == Vacant
  {
    GridView(seq(count, _ => Vacant), stride)
  }

  /** Column-major order: by column, and within a column strictly downwards with a gap. */
  ghost predicate ColumnMajor(rs: seq<Rectangle>)
  {
    forall i, j :: 0 <= i < j < |rs| ==>
      rs[i].X() < rs[j].X() || (rs[i].X() == rs[j].X() && rs[i].YY() < rs[j].Y())
  }

  /** Every in-bounds position lies in exactly one column and row: the index of a tile gives its position. */
  lemma PositionOfIndex(g: GridView, i: int)
    requires g.Valid() && 0 <= i < |g.tiles|
    ensures g.InBounds(i % g.stride, i / g.stride) && g.ToIndex(i % g.stride, i / g.stride) == i
  {
    var s := g.stride;
    var r := |g.tiles| / s;
    assert |g.tiles| == r * s;
    assert i == i % s + (i / s) * s;
  }

  /** The tiles of `base` with `state` in the cells of `a` and of `b`. */
  ghost function Painting(base: GridView, a: Rectangle, b: Rectangle, state: FloorTileType): (r: seq<FloorTileType>)
    requires base.Valid()
    ensures |r| == |base.tiles|
  {
    seq(|base.tiles|, i requires 0 <= i < |base.tiles| =>
      if a.InCell(i % base.stride, i / base.stride) || b.InCell(i % base.stride, i / base.stride) then state
      else base.tiles[i])
  }

  /** Setting the tile (nx, ny) extends the painted part of column `nx` by one row. */
  lemma PaintTile(base: GridView, x: int, y: int, nx: int, ny: int, yy: int, state: FloorTileType)
    requires base.Valid() && y <= ny
    ensures var before := Painting(base, Rect(x, y, nx, yy), Rect(nx, y, nx + 1, ny), state);
            GridView(before, base.stride).SetTile(nx, ny, state).tiles ==
            Painting(base, Rect(x, y, nx, yy), Rect(nx, y, nx + 1, ny + 1), state)
  {
    var before := Painting(base, Rect(x, y, nx, yy), Rect(nx, y, nx + 1, ny), state);
    var h := GridView(before, base.stride);
    var v := h.ToIndex(nx, ny);
    var after := h.SetTile(nx, ny, state).tiles;
    var goal := Painting(base, Rect(x, y, nx, yy), Rect(nx, y, nx + 1, ny + 1), state);
    forall i | 0 <= i < |after|
      ensures after[i] == goal[i]
    {
      PositionOfIndex(h, i);
      if i % base.stride == nx && i / base.stride == ny {
        assert v == i;
      }
    }
  }

  /** A finished column joins the painted rectangle. */
  lemma PaintColumn(base: GridView, x: int, y: int, nx: int, ny: int, yy: int, state: FloorTileType)
    requires base.Valid() && nx >= x && ny >= y && (ny <= yy || ny == y) && !(ny < yy)
    ensures Painting(base, Rect(x, y, nx, yy), Rect(nx, y, nx + 1, ny), state) ==
            Painting(base, Rect(x, y, nx + 1, yy), Rect(nx + 1, y, nx + 1, y), state)
  {
    var a := Painting(base, Rect(x, y, nx, yy), Rect(nx, y, nx + 1, ny), state);
    var b := Painting(base, Rect(x, y, nx + 1, yy), Rect(nx + 1, y, nx + 1, y), state);
    forall i | 0 <= i < |a|
      ensures a[i] == b[i]
    {
    }
  }

  /** Once every column is painted the tiles are those of the grid's `SetArea`. */
  lemma PaintDone(base: GridView, x: int, y: int, nx: int, xx: int, yy: int, state: FloorTileType)
    requires base.Valid() && nx >= x && (nx <= xx || nx == x) && !(nx < xx)
    ensures Painting(base, Rect(x, y, nx, yy), Rect(nx, y, nx, y), state) == base.SetArea(x, y, xx, yy, state).tiles
  {
    var a := Painting(base, Rect(x, y, nx, yy), Rect(nx, y, nx, y), state);
    var b := base.SetArea(x, y, xx, yy, state).tiles;
    forall i | 0 <= i < |a|
      ensures a[i] == b[i]
    {
    }
  }

  /** `ToPosition` inverts `ToIndex` on in-bounds positions, and `ToIndex` inverts `ToPosition` on indices. */
  lemma ToPositionInverse(g: GridView)
    requires g.Valid()
    ensures forall x, y :: g.InBounds(x, y) ==> g.ToPosition(g.ToIndex(x, y)) == Ok(Point(x, y))
    ensures forall i :: 0 <= i < |g.tiles| ==>
              g.ToPosition(i).Ok? && g.ToIndex(g.ToPosition(i).value.X, g.ToPosition(i).value.Y) == i
  {
    forall i | 0 <= i < |g.tiles| ensures g.ToIndex(i % g.stride, i / g.stride) == i {
      PositionOfIndex(g, i);
    }
  }

  /** The tile predicates: `CheckType` is false out of bounds, `CheckUnavailable` true out of bounds. */
  lemma CheckSemantics(g: GridView, x: int, y: int, t: FloorTileType)
    ensures g.CheckType(x, y, t) <==> g.InBounds(x, y) && g.TileAt(x, y) == t
    ensures g.CheckUnavailable(x, y) <==> !g.InBounds(x, y) || g.TileAt(x, y) == Unavailable
    ensures !g.InBounds(x, y) ==> !g.CheckType(x, y, t) && g.CheckUnavailable(x, y)
  {
  }

  /** `AreaState` on an empty range holds vacuously; on a nonempty range it needs every position in bounds. */
  lemma AreaStateBounds(g: GridView, x: int, y: int, xx: int, yy: int, t: FloorTileType)
    ensures (x >= xx || y >= yy) ==> g.AreaState(x, y, xx, yy, t)
    ensures g.AreaState(x, y, xx, yy, t) && x < xx && y < yy ==> g.InBounds(x, y) && g.InBounds(xx - 1, yy - 1)
  {
    if g.AreaState(x, y, xx, yy, t) && x < xx && y < yy {
      assert g.CheckType(x, y, t) && g.CheckType(xx - 1, yy - 1, t);
    }
  }

  /** The single-tile `Set` writes exactly the tile at (x, y), and nothing out of bounds. */
  lemma SetTileEffect(g: GridView, x: int, y: int, state: FloorTileType)
    requires g.Valid()
    ensures forall cx, cy, t :: g.SetTile(x, y, state).CheckType(cx, cy, t) ==
              if cx == x && cy == y && g.InBounds(x, y) then state == t else g.CheckType(cx, cy, t)
    ensures !g.InBounds(x, y) ==> g.SetTile(x, y, state) == g
  {
    var r := g.SetTile(x, y, state);
    forall cx, cy, t ensures r.CheckType(cx, cy, t) ==
        if cx == x && cy == y && g.InBounds(x, y) then state == t else g.CheckType(cx, cy, t) {
      if g.InBounds(cx, cy) && g.InBounds(x, y) && (cx != x || cy != y) {
        assert g.ToIndex(cx, cy) != g.ToIndex(x, y);
      }
    }
  }

  /** The range `Set` writes exactly the in-bounds positions of the range; an empty range changes nothing. */
  lemma SetAreaEffect(g: GridView, x: int, y: int, xx: int, yy: int, state: FloorTileType)
    requires g.Valid()
    ensures forall cx, cy, t :: g.SetArea(x, y, xx, yy, state).CheckType(cx, cy, t) ==
              if g.InBounds(cx, cy) && Rect(x, y, xx, yy).InCell(cx, cy) then state == t else g.CheckType(cx, cy, t)
    ensures (x >= xx || y >= yy) ==> g.SetArea(x, y, xx, yy, state) == g
  {
    var r := g.SetArea(x, y, xx, yy, state);
    forall cx, cy, t ensures r.CheckType(cx, cy, t) ==
        if g.InBounds(cx, cy) && Rect(x, y, xx, yy).InCell(cx, cy) then state == t else g.CheckType(cx, cy, t) {
      if g.InBounds(cx, cy) {
        var n := g.ToIndex(cx, cy);
        assert r.tiles[n] == if Rect(x, y, xx, yy).InCell(cx, cy) then state else g.tiles[n];
      }
    }
    if x >= xx || y >= yy {
      assert r.tiles == g.tiles;
    }
  }

  /** The scan of one column, from row `y` on, yields rectangles of that column, below the open run's
      start (or row `y`), in downward order with a gap between successive ones. */
  lemma {:induction false} RunsOrdered(g: GridView, t: FloorTileType, ex: bool, x: int, y: nat, ys: int)
    requires ys == -1 || ys < y
    ensures forall k :: 0 <= k < |g.Runs(t, ex, x, y, ys)| ==>
              g.Runs(t, ex, x, y, ys)[k].X() == x && g.Runs(t, ex, x, y, ys)[k].Y() >= (if ys == -1 then y else ys)
    ensures ColumnMajor(g.Runs(t, ex, x, y, ys))
    decreases g.Rows() - y
  {
    var rs := g.Runs(t, ex, x, y, ys);
    if y < g.Rows() {
      if !g.Selected(t, ex, x, y) {
        RunsOrdered(g, t, ex, x, y + 1, -1);
        var rest := g.Runs(t, ex, x, y + 1, -1);
        if ys != -1 {
          assert rs == [Rect(x, ys, x + 1, y)] + rest;
          forall k | 0 < k < |rs| ensures rs[k] == rest[k - 1] && rs[k].Y() > y {
          }
        }
      } else {
        RunsOrdered(g, t, ex, x, y + 1, if ys == -1 then y else ys);
      }
    }
  }

  /** The scan of one column, from row `y` on, yields only maximal runs, given that the open run (if
      any) is all selected and starts right after an unselected tile or at the top. */
  lemma {:induction false} RunsMaximal(g: GridView, t: FloorTileType, ex: bool, x: int, y: nat, ys: int)
    requires 0 <= x < g.Columns() && y <= g.Rows()
    requires ys == -1 ==> (y == 0 || !g.Selected(t, ex, x, y - 1))
    requires ys != -1 ==>
               0 <= ys < y && (ys == 0 || !g.Selected(t, ex, x, ys - 1)) &&
               forall c :: ys <= c < y ==> g.Selected(t, ex, x, c)
    ensures forall k :: 0 <= k < |g.Runs(t, ex, x, y, ys)| ==> g.IsRun(t, ex, g.Runs(t, ex, x, y, ys)[k])
    decreases g.Rows() - y
  {
    var rs := g.Runs(t, ex, x, y, ys);
    if y < g.Rows() {
      if !g.Selected(t, ex, x, y) {
        RunsMaximal(g, t, ex, x, y + 1, -1);
        var rest := g.Runs(t, ex, x, y + 1, -1);
        if ys != -1 {
          assert rs == [Rect(x, ys, x + 1, y)] + rest;
          assert g.IsRun(t, ex, rs[0]);
          forall k | 0 < k < |rs| ensures g.IsRun(t, ex, rs[k]) {
            assert rs[k] == rest[k - 1];
          }
        }
      } else {
        var ys' := if ys == -1 then y else ys;
        assert forall c :: ys' <= c < y + 1 ==> g.Selected(t, ex, x, c);
        RunsMaximal(g, t, ex, x, y + 1, ys');
      }
    }
  }

  /** The scan of one column, from row `y` on, covers the open run and the selected tiles below. */
  lemma {:induction false} RunsCover(g: GridView, t: FloorTileType, ex: bool, x: int, y: nat, ys: int)
    requires g.Valid() && y <= g.Rows()
    requires ys == -1 || 0 <= ys <= y
    ensures forall cx, cy :: Covers(g.Runs(t, ex, x, y, ys), cx, cy) <==>
              cx == x && ((ys != -1 && ys <= cy < y) || (y <= cy < g.Rows() && g.Selected(t, ex, x, cy)))
    decreases g.Rows() - y
  {
    var rs := g.Runs(t, ex, x, y, ys);
    if y >= g.Rows() {
      forall cx, cy ensures Covers(rs, cx, cy) <==> cx == x && ys != -1 && ys <= cy < y {
        if cx == x && ys != -1 && ys <= cy < y { assert rs[0].InCell(cx, cy); }
      }
    } else if !g.Selected(t, ex, x, y) {
      RunsCover(g, t, ex, x, y + 1, -1);
      var rest := g.Runs(t, ex, x, y + 1, -1);
      if ys != -1 {
        var head := Rect(x, ys, x + 1, y);
        assert rs == [head] + rest;
        forall cx, cy ensures Covers(rs, cx, cy) <==> head.InCell(cx, cy) || Covers(rest, cx, cy) {
          if Covers(rs, cx, cy) {
            var k :| 0 <= k < |rs| && rs[k].InCell(cx, cy);
            if k > 0 { assert rest[k - 1].InCell(cx, cy); }
          }
          if Covers(rest, cx, cy) {
            var k :| 0 <= k < |rest| && rest[k].InCell(cx, cy);
            assert rs[k + 1].InCell(cx, cy);
          }
          if head.InCell(cx, cy) { assert rs[0].InCell(cx, cy); }
        }
      }
    } else {
      RunsCover(g, t, ex, x, y + 1, if ys == -1 then y else ys);
    }
  }

  /** The scan of columns `x` onwards: maximal runs of those columns, in column-major order. */
  lemma {:induction false} ColsShape(g: GridView, t: FloorTileType, ex: bool, x: nat)
    requires g.Valid()
    ensures forall k :: 0 <= k < |g.Cols(t, ex, x)| ==>
              g.IsRun(t, ex, g.Cols(t, ex, x)[k]) && g.Cols(t, ex, x)[k].X() >= x
    ensures ColumnMajor(g.Cols(t, ex, x))
    decreases g.Columns() - x
  {
    if x < g.Columns() {
      ColsShape(g, t, ex, x + 1);
      RunsOrdered(g, t, ex, x, 0, -1);
      RunsMaximal(g, t, ex, x, 0, -1);
      ShapeConcat(g, t, ex, x, g.Runs(t, ex, x, 0, -1), g.Cols(t, ex, x + 1));
    }
  }

  /** The runs of column `x` followed by the runs of the columns after it are in column-major order. */
  lemma ShapeConcat(g: GridView, t: FloorTileType, ex: bool, x: int, a: seq<Rectangle>, b: seq<Rectangle>)
    requires g.Valid()
    requires forall k :: 0 <= k < |a| ==> g.IsRun(t, ex, a[k]) && a[k].X() == x
    requires forall k :: 0 <= k < |b| ==> g.IsRun(t, ex, b[k]) && b[k].X() >= x + 1
    requires ColumnMajor(a) && ColumnMajor(b)
    ensures forall k :: 0 <= k < |a + b| ==> g.IsRun(t, ex, (a + b)[k]) && (a + b)[k].X() >= x
    ensures ColumnMajor(a + b)
  {
    var rs := a + b;
    forall k | 0 <= k < |rs| ensures g.IsRun(t, ex, rs[k]) && rs[k].X() >= x {
      if k >= |a| { assert rs[k] == b[k - |a|]; }
    }
    forall i, j | 0 <= i < j < |rs|
      ensures rs[i].X() < rs[j].X() || (rs[i].X() == rs[j].X() && rs[i].YY() < rs[j].Y()) {
      if j < |a| {
        assert rs[i] == a[i] && rs[j] == a[j];
      } else if i >= |a| {
        assert rs[i] == b[i - |a|] && rs[j] == b[j - |a|];
      } else {
        assert rs[i] == a[i] && rs[j] == b[j - |a|];
      }
    }
  }

  /** The scan of columns `x` onwards covers exactly the selected in-bounds tiles of those columns. */
  lemma {:induction false} ColsCover(g: GridView, t: FloorTileType, ex: bool, x: nat)
    requires g.Valid()
    ensures forall cx, cy :: Covers(g.Cols(t, ex, x), cx, cy) <==>
              x <= cx && g.InBounds(cx, cy) && g.Selected(t, ex, cx, cy)
    decreases g.Columns() - x
  {
    if x < g.Columns() {
      ColsCover(g, t, ex, x + 1);
      RunsCover(g, t, ex, x, 0, -1);
      var a := g.Runs(t, ex, x, 0, -1);
      var b := g.Cols(t, ex, x + 1);
      forall cx, cy ensures Covers(a + b, cx, cy) <==> Covers(a, cx, cy) || Covers(b, cx, cy) {
        if Covers(a + b, cx, cy) {
          var k :| 0 <= k < |a + b| && (a + b)[k].InCell(cx, cy);
          if k >= |a| { assert b[k - |a|].InCell(cx, cy); } else { assert a[k].InCell(cx, cy); }
        }
        if Covers(a, cx, cy) {
          var k :| 0 <= k < |a| && a[k].InCell(cx, cy);
          assert (a + b)[k].InCell(cx, cy);
        }
        if Covers(b, cx, cy) {
          var k :| 0 <= k < |b| && b[k].InCell(cx, cy);
          assert (a + b)[|a| + k].InCell(cx, cy);
        }
      }
    }
  }

  /** Width-one rectangles in column-major order share no cell. */
  lemma ColumnMajorDisjoint(rs: seq<Rectangle>)
    requires ColumnMajor(rs) && forall k :: 0 <= k < |rs| ==> rs[k].XX() == rs[k].X() + 1
    ensures CellsDisjoint(rs)
  {
  }

  /** `FindRectangles(t)` and `FindRectanglesExclusive(t)`: maximal one-column runs of the selected tiles,
      in column-major order, pairwise disjoint, covering exactly the selected in-bounds tiles. */
  lemma FindRectsProperties(g: GridView, t: FloorTileType, ex: bool)
    requires g.Valid()
    ensures forall k :: 0 <= k < |g.FindRects(t, ex)| ==> g.IsRun(t, ex, g.FindRects(t, ex)[k])
    ensures ColumnMajor(g.FindRects(t, ex)) && CellsDisjoint(g.FindRects(t, ex))
    ensures forall cx, cy :: Covers(g.FindRects(t, ex), cx, cy) <==>
              g.InBounds(cx, cy) && (ex != (g.TileAt(cx, cy) == t))
  {
    ColsShape(g, t, ex, 0);
    ColsCover(g, t, ex, 0);
    ColumnMajorDisjoint(g.FindRects(t, ex));
  }

  /** The two scans partition the grid: every in-bounds tile is covered by exactly one of them. */
  lemma FindRectsPartition(g: GridView, t: FloorTileType)
    requires g.Valid()
    ensures forall cx, cy :: g.InBounds(cx, cy) ==>
              (Covers(g.FindRects(t, false), cx, cy) <==> !Covers(g.FindRects(t, true), cx, cy))
    ensures forall cx, cy :: !g.InBounds(cx, cy) ==>
              !Covers(g.FindRects(t, false), cx, cy) && !Covers(g.FindRects(t, true), cx, cy)
  {
    FindRectsProperties(g, t, false);
    FindRectsProperties(g, t, true);
  }

  /** Range-`Set` each rectangle of `rs` to `t`, in order. */
  function SetAll(g: GridView, rs: seq<Rectangle>, t: FloorTileType): (r: GridView)
    requires g.Valid()
    ensures r.stride == g.stride && |r.tiles| == |g.tiles|
    decreases |rs|
  {
    if |rs| == 0 then g else SetAll(g.SetArea(rs[0].X(), rs[0].Y(), rs[0].XX(), rs[0].YY(), t), rs[1..], t)
  }

  /** Setting one more rectangle after a list is the same as setting the longer list. */
  lemma {:induction false} SetAllSnoc(g: GridView, rs: seq<Rectangle>, r: Rectangle, t: FloorTileType)
    requires g.Valid()
    ensures SetAll(g, rs, t).Valid()
    ensures SetAll(g, rs + [r], t) == SetAll(g, rs, t).SetArea(r.X(), r.Y(), r.XX(), r.YY(), t)
    decreases |rs|
  {
    if |rs| > 0 {
      var h := g.SetArea(rs[0].X(), rs[0].Y(), rs[0].XX(), rs[0].YY(), t);
      assert (rs + [r])[1..] == rs[1..] + [r];
      SetAllSnoc(h, rs[1..], r, t);
    }
  }

  lemma {:induction false} SetAllTiles(g: GridView, rs: seq<Rectangle>, t: FloorTileType)
    requires g.Valid()
    ensures forall i :: 0 <= i < |g.tiles| ==>
              SetAll(g, rs, t).tiles[i] == if Covers(rs, i % g.stride, i / g.stride) then t else g.tiles[i]
    decreases |rs|
  {
    if |rs| > 0 {
      var h := g.SetArea(rs[0].X(), rs[0].Y(), rs[0].XX(), rs[0].YY(), t);
      SetAllTiles(h, rs[1..], t);
      forall i | 0 <= i < |g.tiles|
        ensures Covers(rs, i % g.stride, i / g.stride) <==>
                rs[0].InCell(i % g.stride, i / g.stride) || Covers(rs[1..], i % g.stride, i / g.stride) {
        var cx, cy := i % g.stride, i / g.stride;
        if Covers(rs, cx, cy) {
          var k :| 0 <= k < |rs| && rs[k].InCell(cx, cy);
          if k > 0 { assert rs[1..][k - 1].InCell(cx, cy); }
        }
        if Covers(rs[1..], cx, cy) {
          var k :| 0 <= k < |rs[1..]| && rs[1..][k].InCell(cx, cy);
          assert rs[k + 1].InCell(cx, cy);
        }
      }
      forall i | 0 <= i < |g.tiles| ensures h.tiles[i] == if rs[0].InCell(i % g.stride, i / g.stride) then t else g.tiles[i] {
        assert rs[0] == Rect(rs[0].X(), rs[0].Y(), rs[0].XX(), rs[0].YY());
      }
    }
  }

  /** Re-`Set`ting the rectangles of `FindRectangles(t)` to `t` on a same-sized grid `h` without `t` tiles
      puts `t` exactly where the original grid had it, and leaves the rest of `h` alone. */
  lemma FindRectsRoundTrip(g: GridView, h: GridView, t: FloorTileType)
    requires g.Valid() && h.stride == g.stride && |h.tiles| == |g.tiles|
    requires forall i :: 0 <= i < |h.tiles| ==> h.tiles[i] != t
    ensures forall i :: 0 <= i < |g.tiles| ==>
              SetAll(h, g.FindRects(t, false), t).tiles[i] == if g.tiles[i] == t then t else h.tiles[i]
  {
    FindRectsProperties(g, t, false);
    SetAllTiles(h, g.FindRects(t, false), t);
    forall i | 0 <= i < |g.tiles| ensures g.InBounds(i % g.stride, i / g.stride) &&
                                          g.TileAt(i % g.stride, i / g.stride) == g.tiles[i] {
      PositionOfIndex(g, i);
    }
  }

  /** Owns the tile array; the stride never changes. */
  class FloorplanGrid {
    const tiles: array<FloorTileType>
    const stride: nat

    ghost predicate Valid()
    {
      stride > 0 && tiles.Length % stride == 0
    }

    function View(): GridView
      reads tiles
    {
      GridView(tiles[..], stride)
    }

    /** The constructor, on arguments for which the source does not throw: all tiles Vacant. */
    constructor (tileCount: nat, tileStride: nat)
      requires tileStride > 0 && tileCount % tileStride == 0
      ensures Valid() && fresh(tiles) && View() == Blank(tileCount, tileStride)
    {
      tiles := new FloorTileType[tileCount](_ => Unavailable);
      stride := tileStride;
      new;
      Reset();
    }

    /** The constructor with its throwing paths: division by a zero stride, an indivisible count, and a
        negative array size. */
    static method Create(tileCount: int, tileStride: nat) returns (r: Result<FloorplanGrid>)
      ensures r.Throws? <==> ConstructorError(tileCount, tileStride).Some?
      ensures r.Throws? ==> r.exception == ConstructorError(tileCount, tileStride).value
      ensures r.Ok? ==> r.value.Valid() && fresh(r.value.tiles) && r.value.View() == Blank(tileCount, tileStride)
    {
      var e := ConstructorError(tileCount, tileStride);
      if e.Some? {
        return Throws(e.value);
      }
      var g := new FloorplanGrid(tileCount, tileStride);
      return Ok(g);
    }

    method Clone() returns (g: FloorplanGrid)
      requires Valid()
      ensures g.Valid() && fresh(g.tiles) && g.View() == View()
    {
      g := new FloorplanGrid(tiles.Length, stride);
      forall i | 0 <= i < tiles.Length {
        g.tiles[i] := tiles[i];
      }
    }

    /** Writes the tile states `ts` of a grid of the same size, tile by tile. */
    method Overwrite(ts: seq<FloorTileType>)
      requires |ts| == tiles.Length
      modifies tiles
      ensures View() == GridView(ts, stride)
    {
      forall i | 0 <= i < tiles.Length {
        tiles[i] := ts[i];
      }
    }

    method Reset()
      modifies tiles
      ensures View() == Blank(tiles.Length, stride)
    {
      var n := 0;
      while n < tiles.Length
        invariant 0 <= n <= tiles.Length
        invariant forall i :: 0 <= i < n ==> tiles[i] == Vacant
      {
        tiles[n] := Vacant;
        n := n + 1;
      }
    }

    /** The single-tile `Set`. */
    method SetTile(x: int, y: int, state: FloorTileType)
      modifies tiles
      ensures View() == old(View()).SetTile(x, y, state)
    {
      var v := View().ToIndex(x, y);
      if v != -1 {
        tiles[v] := state;
      }
    }

    /** The range `Set`: column by column, then row by row. */
    method SetArea(x: int, y: int, xx: int, yy: int, state: FloorTileType)
      requires Valid()
      modifies tiles
      ensures View() == old(View()).SetArea(x, y, xx, yy, state)
    {
      ghost var g := View();
      var nx := x;
      while nx < xx
        invariant nx >= x && (nx <= xx || nx == x)
        invariant tiles[..] == Painting(g, Rect(x, y, nx, yy), Rect(nx, y, nx, y), state)
        decreases xx - nx
      {
        var ny := y;
        while ny < yy
          invariant ny >= y && (ny <= yy || ny == y)
          invariant tiles[..] == Painting(g, Rect(x, y, nx, yy), Rect(nx, y, nx + 1, ny), state)
          decreases yy - ny
        {
          SetTile(nx, ny, state);
          PaintTile(g, x, y, nx, ny, yy, state);
          ny := ny + 1;
        }
        PaintColumn(g, x, y, nx, ny, yy, state);
        nx := nx + 1;
      }
      PaintDone(g, x, y, nx, xx, yy, state);
    }

    /** `CheckAreaState`: column by column, stopping at the first position that is not of type `tileType`. */
    method CheckAreaState(x: int, y: int, xx: int, yy: int, tileType: FloorTileType) returns (r: bool)
      ensures r == View().AreaState(x, y, xx, yy, tileType)
    {
      var nx := x;
      while nx < xx
        invariant nx >= x && (nx <= xx || nx == x)
        invariant forall cx, cy :: x <= cx < nx && y <= cy < yy ==> View().CheckType(cx, cy, tileType)
        decreases xx - nx
      {
        var ny := y;
        while ny < yy
          invariant ny >= y && (ny <= yy || ny == y)
          invariant forall cy :: y <= cy < ny ==> View().CheckType(nx, cy, tileType)
          decreases yy - ny
        {
          if !View().CheckType(nx, ny, tileType) {
            return false;
          }
          ny := ny + 1;
        }
        nx := nx + 1;
      }
      return true;
    }

    /** One column of the scan: the inner loop of `FindRectangles`, with the run closed at the bottom row. */
    method ScanColumn(tileType: FloorTileType, exclusive: bool, x: nat) returns (ret: seq<Rectangle>)
      requires Valid() && x < stride
      ensures ret == View().Runs(tileType, exclusive, x, 0, -1)
    {
      ghost var g := View();
      ret := [];
      var rows := tiles.Length / stride;
      var yStart := -1;
      var y := 0;
      while y < rows
        invariant 0 <= y <= rows
        invariant yStart == -1 || 0 <= yStart < y
        invariant ret + g.Runs(tileType, exclusive, x, y, yStart) == g.Runs(tileType, exclusive, x, 0, -1)
      {
        ghost var next := g.Runs(tileType, exclusive, x, y + 1, -1);
        IndexBelow(x, y, stride, tiles.Length);
        var hit := tiles[x + y * stride] == tileType;
        assert hit == g.CheckType(x, y, tileType);
        if hit == exclusive {
          if yStart != -1 {
            assert g.Runs(tileType, exclusive, x, y, yStart) == [Rect(x, yStart, x + 1, y)] + next;
            ret := ret + [Rect(x, yStart, x + 1, y)];
            yStart := -1;
          }
        } else {
          if yStart == -1 {
            yStart := y;
          }
        }
        y := y + 1;
      }
      if yStart != -1 {
        ret := ret + [Rect(x, yStart, x + 1, rows)];
      }
    }

    /** The shared loop of `FindRectangles` and `FindRectanglesExclusive`; `exclusive` inverts the test. */
    method FindRuns(tileType: FloorTileType, exclusive: bool) returns (ret: seq<Rectangle>)
      requires Valid()
      ensures ret == View().FindRects(tileType, exclusive)
    {
      ghost var g := View();
      ret := [];
      var x := 0;
      while x < stride
        invariant 0 <= x <= stride
        invariant ret + g.Cols(tileType, exclusive, x) == g.Cols(tileType, exclusive, 0)
      {
        var column := ScanColumn(tileType, exclusive, x);
        ghost var rest := g.Cols(tileType, exclusive, x + 1);
        assert g.Cols(tileType, exclusive, x) == column + rest;
        assert ret + column + rest == ret + (column + rest);
        ret := ret + column;
        x := x + 1;
      }
    }

    method FindRectangles(tileType: FloorTileType) returns (ret: seq<Rectangle>)
      requires Valid()
      ensures ret == View().FindRects(tileType, false)
    {
      ret := FindRuns(tileType, false);
    }

    method FindRectanglesExclusive(typeToExclude: FloorTileType) returns (ret: seq<Rectangle>)
      requires Valid()
      ensures ret == View().FindRects(typeToExclude, true)
    {
      ret := FindRuns(typeToExclude, true);
    }
  }

  /** The exception the constructor throws, if any: `%` by zero, an indivisible count, a negative size. */
  function ConstructorError(tileCount: int, tileStride: nat): (r: Option<Exception>)
    ensures r.None? <==> tileStride > 0 && tileCount >= 0 && tileCount % tileStride == 0
  {
    if tileStride == 0 then Some(DivideByZeroException)
    else if tileCount % tileStride != 0 then Some(ArgumentException)
    else if tileCount < 0 then Some(OverflowException)
    else None
  }
}

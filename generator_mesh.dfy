/** The generator's mesh exporter (BuildGen/Common/IO/BuildingXmlIo.cs, `ExportBuildingMesh` and the
    layer writers it calls), on the pieces of `MeshParts`: which passage sides are walled, which room wall
    tiles become windows, which exterior sides carry a doorway or a window, and what the roof covers. */
module GeneratorMesh {
  import opened Wrappers
  import opened Seqs
  import opened Directions
  import opened Points
  import opened Rectangles
  import opened Grids
  import opened Entrances
  import opened Rooms
  import opened Floors
  import opened Buildings
  import opened MeshParts

  predicate Increasing(s: seq<int>)
  {
    forall i, j :: 0 <= i < j < |s| ==> s[i] < s[j]
  }

  // ---------------------------------------------------------------------------------------------
  // The window scan of a room wall

  /** The test of `GenerateListValidWindowTiles` at step `k`: the tile one step towards `window` from
      the `k`-th position of the scan is unavailable (or off the grid). */
  predicate Blocked(g: GridView, start: Point, expansion: Direction, window: Direction, k: int)
  {
    var q := start.Advance(expansion, k).Advance(window, 1);
    g.CheckUnavailable(q.X, q.Y)
  }

  /** The offsets the first `n` steps of the scan report: step `k` reports `k - 1` when it and the two
      steps before it are blocked. */
  function WindowOffsets(g: GridView, start: Point, expansion: Direction, window: Direction, n: int): seq<int>
    decreases n
  {
    if n < 3 then []
    else
      WindowOffsets(g, start, expansion, window, n - 1) +
      (if Blocked(g, start, expansion, window, n - 3) && Blocked(g, start, expansion, window, n - 2) &&
          Blocked(g, start, expansion, window, n - 1)
       then [n - 2] else [])
  }

  /** One more step of the scan reports the previous offset when it and the two steps before it are blocked. */
  lemma WindowOffsetsStep(g: GridView, start: Point, expansion: Direction, window: Direction, n: int)
    requires n >= 0
    ensures WindowOffsets(g, start, expansion, window, n + 1) ==
            WindowOffsets(g, start, expansion, window, n) +
            (if n >= 2 && Blocked(g, start, expansion, window, n - 2) && Blocked(g, start, expansion, window, n - 1) &&
                Blocked(g, start, expansion, window, n)
             then [n - 1] else [])
  {
  }

  /** The state of `GenerateListValidWindowTiles` after `n` steps: the position, the last two results
      (false before the scan has gone that far) and the offsets reported so far. */
  predicate ScanState(g: GridView, start: Point, expansion: Direction, window: Direction, n: int, pos: Point,
                      prev0: bool, prev1: bool, offsets: seq<int>)
  {
    n >= 0 && pos == start.Advance(expansion, n) &&
    prev0 == (n >= 1 && Blocked(g, start, expansion, window, n - 1)) &&
    prev1 == (n >= 2 && Blocked(g, start, expansion, window, n - 2)) &&
    offsets == WindowOffsets(g, start, expansion, window, n)
  }

  /** One step of the scan, from the state after `n` steps to the state after `n + 1`. */
  lemma ScanStep(g: GridView, start: Point, expansion: Direction, window: Direction, n: int, pos: Point,
                 prev0: bool, prev1: bool, offsets: seq<int>, cur: bool, next: seq<int>)
    requires ScanState(g, start, expansion, window, n, pos, prev0, prev1, offsets)
    requires cur == g.CheckUnavailable(pos.Advance(window, 1).X, pos.Advance(window, 1).Y)
    requires next == if cur && prev0 && prev1 then offsets + [n - 1] else offsets
    ensures ScanState(g, start, expansion, window, n + 1, pos.Advance(expansion, 1), cur, prev0, next)
  {
    AdvanceTwice(start, expansion, n, 1);
    WindowOffsetsStep(g, start, expansion, window, n);
  }

  /** Offset `m` of a scan of `n` tiles is strictly inside the scanned stretch, and it and both of its
      neighbours face a blocked tile. */
  predicate WindowAt(g: GridView, start: Point, expansion: Direction, window: Direction, n: int, m: int)
  {
    1 <= m <= n - 2 && Blocked(g, start, expansion, window, m - 1) &&
    Blocked(g, start, expansion, window, m) && Blocked(g, start, expansion, window, m + 1)
  }

  /** An offset is reported exactly when it is strictly inside the scanned stretch and it and both its
      neighbours face a blocked tile; the offsets come out in increasing order. */
  lemma WindowOffsetsMeaning(g: GridView, start: Point, expansion: Direction, window: Direction, n: int)
    ensures forall m :: m in WindowOffsets(g, start, expansion, window, n) <==> WindowAt(g, start, expansion, window, n, m)
    ensures Increasing(WindowOffsets(g, start, expansion, window, n))
  {
    WindowOffsetsMembers(g, start, expansion, window, n);
    WindowOffsetsIncreasing(g, start, expansion, window, n);
  }

  lemma {:induction false} WindowOffsetsMembers(g: GridView, start: Point, expansion: Direction, window: Direction, n: int)
    ensures forall m :: m in WindowOffsets(g, start, expansion, window, n) <==> WindowAt(g, start, expansion, window, n, m)
    decreases n
  {
    if n >= 3 {
      WindowOffsetsMembers(g, start, expansion, window, n - 1);
      var prev := WindowOffsets(g, start, expansion, window, n - 1);
      var last := if Blocked(g, start, expansion, window, n - 3) && Blocked(g, start, expansion, window, n - 2) &&
                     Blocked(g, start, expansion, window, n - 1) then [n - 2] else [];
      assert WindowOffsets(g, start, expansion, window, n) == prev + last;
      forall m
        ensures m in prev + last <==> WindowAt(g, start, expansion, window, n, m)
      {
        assert m in prev <==> WindowAt(g, start, expansion, window, n - 1, m);
        assert m in last <==> m == n - 2 && WindowAt(g, start, expansion, window, n, m);
      }
    } else {
      assert WindowOffsets(g, start, expansion, window, n) == [];
    }
  }

  lemma {:induction false} WindowOffsetsIncreasing(g: GridView, start: Point, expansion: Direction, window: Direction, n: int)
    ensures Increasing(WindowOffsets(g, start, expansion, window, n))
    decreases n
  {
    if n >= 3 {
      WindowOffsetsIncreasing(g, start, expansion, window, n - 1);
      WindowOffsetsMembers(g, start, expansion, window, n - 1);
      var prev := WindowOffsets(g, start, expansion, window, n - 1);
      forall i | 0 <= i < |prev|
        ensures prev[i] < n - 2
      {
        assert prev[i] in prev;
        assert WindowAt(g, start, expansion, window, n - 1, prev[i]);
      }
      IncreasingSnoc(prev, n - 2);
    }
  }

  /** Appending a value above every element keeps a sequence increasing. */
  lemma IncreasingSnoc(s: seq<int>, x: int)
    requires Increasing(s) && forall i :: 0 <= i < |s| ==> s[i] < x
    ensures Increasing(s + [x])
  {
  }

  /** `GenerateListValidWindowTiles`: the scan keeps the last two results in a two-element array. */
  method GenerateListValidWindowTiles(start: Point, numTiles: int, floor: FloorView, expansionDirection: Direction,
                                      windowDirection: Direction)
    returns (validWindowTileOffsets: seq<int>)
    ensures validWindowTileOffsets == WindowOffsets(floor.grid, start, expansionDirection, windowDirection, numTiles)
  {
    validWindowTileOffsets := [];
    var pos := start;
    var prevTileValid := new bool[2];
    prevTileValid[0], prevTileValid[1] := false, false;
    var n := 0;
    ghost var prev0, prev1 := false, false;
    while n < numTiles
      invariant n <= numTiles || n == 0
      invariant prevTileValid[0] == prev0 && prevTileValid[1] == prev1
      invariant ScanState(floor.grid, start, expansionDirection, windowDirection, n, pos, prev0, prev1, validWindowTileOffsets)
    {
      var windowPos := pos.Advance(windowDirection, 1);
      var curTileValid := floor.grid.CheckUnavailable(windowPos.X, windowPos.Y);
      ghost var offsets := validWindowTileOffsets;
      if curTileValid && prevTileValid[0] && prevTileValid[1] {
        validWindowTileOffsets := validWindowTileOffsets + [n - 1];
      }
      ScanStep(floor.grid, start, expansionDirection, windowDirection, n, pos, prev0, prev1, offsets,
               curTileValid, validWindowTileOffsets);
      prevTileValid[1] := prevTileValid[0];
      prevTileValid[0] := curTileValid;
      prev0, prev1 := curTileValid, prev0;
      pos := pos.Advance(expansionDirection, 1);
      n := n + 1;
    }
  }

  // ---------------------------------------------------------------------------------------------
  // One room wall

  /** The direction a wall runs in: South for the West and East walls, East for the North and South ones. */
  function WallAxis(facing: Direction): Direction
  {
    if IsHorizontal(facing) then South else East
  }

  /** The panels the `i`-th window offset closes: the even ones a window (one panel below it, one above),
      the odd ones a full-height stretch. Each ends one tile past its offset. */
  function Stretch(facing: Direction, ws: seq<int>, i: nat): seq<Quad>
    requires i < |ws|
  {
    var from := if i == 0 then ws[0] else ws[i - 1] + 1;
    if i % 2 == 1 then [WallPanel(facing, from, At(ws[i] + 1), Full)]
    else [WallPanel(facing, from, At(ws[i] + 1), BelowWindow), WallPanel(facing, from, At(ws[i] + 1), AboveWindow)]
  }

  function Stretches(facing: Direction, ws: seq<int>, n: nat): seq<Quad>
    requires n <= |ws|
  {
    if n == 0 then [] else Stretches(facing, ws, n - 1) + Stretch(facing, ws, n - 1)
  }

  /** The tile indices the first `n` offsets record: the tile of every even offset along the wall. */
  function WindowIndices(g: GridView, origin: Point, axis: Direction, ws: seq<int>, n: nat): seq<int>
    requires n <= |ws|
  {
    if n == 0 then []
    else
      var p := origin.Advance(axis, ws[n - 1]);
      WindowIndices(g, origin, axis, ws, n - 1) + (if (n - 1) % 2 == 0 then [g.ToIndex(p.X, p.Y)] else [])
  }

  /** What `GenerateWall` appends to the mesh and to the window list: ArgumentException for a facing that
      is not a side; one full-height panel without windows; otherwise a full panel up to the first offset,
      the stretches, and a full panel from one tile past the last offset to the end of the wall. */
  function Wall(g: GridView, origin: Point, ws: seq<int>, facing: Direction): (r: Result<(seq<Quad>, seq<int>)>)
    ensures r.Ok? <==> IsCardinal(facing)
  {
    if !IsCardinal(facing) then Throws(ArgumentException)
    else if |ws| == 0 then Ok(([WallPanel(facing, 0, WallEnd, Full)], []))
    else
      Ok(([WallPanel(facing, 0, At(ws[0]), Full)] + Stretches(facing, ws, |ws|) +
          [WallPanel(facing, ws[|ws| - 1] + 1, WallEnd, Full)],
          WindowIndices(g, origin, WallAxis(facing), ws, |ws|)))
  }

  /** One window tile is recorded for every other offset, starting with the first, and it is the tile at
      that offset along the wall. */
  lemma {:induction false} WindowIndicesOfOffsets(g: GridView, origin: Point, axis: Direction, ws: seq<int>, n: nat)
    requires n <= |ws|
    ensures |WindowIndices(g, origin, axis, ws, n)| == (n + 1) / 2
    ensures forall j :: 0 <= j < (n + 1) / 2 ==>
              WindowIndices(g, origin, axis, ws, n)[j] ==
              g.ToIndex(origin.Advance(axis, ws[2 * j]).X, origin.Advance(axis, ws[2 * j]).Y)
  {
    if n > 0 {
      WindowIndicesOfOffsets(g, origin, axis, ws, n - 1);
    }
  }

  /** A window panel of `qs` ends at `stop`. */
  ghost predicate HasWindow(qs: seq<Quad>, stop: Stop)
  {
    exists k :: 0 <= k < |qs| && qs[k].WallPanel? && qs[k].band == BelowWindow && qs[k].to == stop
  }

  /** A stretch holds a window, ending one tile past its offset, exactly when its index is even. */
  lemma StretchWindow(facing: Direction, ws: seq<int>, i: nat, stop: Stop)
    requires i < |ws|
    ensures HasWindow(Stretch(facing, ws, i), stop) <==> i % 2 == 0 && stop == At(ws[i] + 1)
  {
    if i % 2 == 0 && stop == At(ws[i] + 1) {
      assert Stretch(facing, ws, i)[0].band == BelowWindow;
    }
  }

  lemma {:induction false} StretchesShape(facing: Direction, ws: seq<int>, n: nat)
    requires n <= |ws| && Increasing(ws)
    ensures |Stretches(facing, ws, n)| == n + (n + 1) / 2
    ensures forall k :: 0 <= k < |Stretches(facing, ws, n)| ==>
              Stretches(facing, ws, n)[k].WallPanel? && Stretches(facing, ws, n)[k].to.At? &&
              Stretches(facing, ws, n)[k].to.offset <= ws[n - 1] + 1
    ensures forall i :: 0 <= i < n ==> (HasWindow(Stretches(facing, ws, n), At(ws[i] + 1)) <==> i % 2 == 0)
  {
    if n > 0 {
      StretchesShape(facing, ws, n - 1);
      StretchesStep(facing, ws, n);
    }
  }

  /** The three facts of `StretchesShape` about the panels `qs` of the first `n` stretches. */
  ghost predicate StretchesFacts(ws: seq<int>, qs: seq<Quad>, n: nat)
    requires n <= |ws|
  {
    |qs| == n + (n + 1) / 2 &&
    (forall k :: 0 <= k < |qs| ==> qs[k].WallPanel? && qs[k].to.At? && qs[k].to.offset <= ws[n - 1] + 1) &&
    (forall i :: 0 <= i < n ==> (HasWindow(qs, At(ws[i] + 1)) <==> i % 2 == 0))
  }

  lemma StretchesStep(facing: Direction, ws: seq<int>, n: nat)
    requires 0 < n <= |ws| && Increasing(ws) && StretchesFacts(ws, Stretches(facing, ws, n - 1), n - 1)
    ensures StretchesFacts(ws, Stretches(facing, ws, n), n)
  {
    var a, b := Stretches(facing, ws, n - 1), Stretch(facing, ws, n - 1);
    assert Stretches(facing, ws, n) == a + b;
    if n > 1 {
      assert ws[n - 2] < ws[n - 1];
    }
    forall i | 0 <= i < n
      ensures HasWindow(a + b, At(ws[i] + 1)) <==> i % 2 == 0
    {
      HasWindowConcat(a, b, At(ws[i] + 1));
      StretchWindow(facing, ws, n - 1, At(ws[i] + 1));
    }
  }

  /** The wall of a side: without offsets one full-height panel; with offsets a window at the first, third,
      fifth, ... offset of an increasing list and none at the others, two panels per window and one per
      other stretch, and one recorded tile per window. */
  lemma WallShape(g: GridView, origin: Point, ws: seq<int>, facing: Direction)
    requires IsCardinal(facing) && Increasing(ws)
    ensures |ws| == 0 ==> Wall(g, origin, ws, facing) == Ok(([WallPanel(facing, 0, WallEnd, Full)], []))
    ensures |ws| > 0 ==> Triangles(Wall(g, origin, ws, facing).value.0) == 2 * (|ws| + (|ws| + 1) / 2 + 2)
    ensures forall i :: 0 <= i < |ws| ==> (HasWindow(Wall(g, origin, ws, facing).value.0, At(ws[i] + 1)) <==> i % 2 == 0)
    ensures |Wall(g, origin, ws, facing).value.1| == (|ws| + 1) / 2
    ensures forall j :: 0 <= j < (|ws| + 1) / 2 ==>
              Wall(g, origin, ws, facing).value.1[j] ==
              g.ToIndex(origin.Advance(WallAxis(facing), ws[2 * j]).X, origin.Advance(WallAxis(facing), ws[2 * j]).Y)
  {
    WindowIndicesOfOffsets(g, origin, WallAxis(facing), ws, |ws|);
    if |ws| > 0 {
      WallPanels(facing, ws);
    }
  }

  lemma WallPanels(facing: Direction, ws: seq<int>)
    requires |ws| > 0 && Increasing(ws)
    ensures var qs := [WallPanel(facing, 0, At(ws[0]), Full)] + Stretches(facing, ws, |ws|) +
                      [WallPanel(facing, ws[|ws| - 1] + 1, WallEnd, Full)];
            |qs| == |ws| + (|ws| + 1) / 2 + 2 &&
            forall i :: 0 <= i < |ws| ==> (HasWindow(qs, At(ws[i] + 1)) <==> i % 2 == 0)
  {
    StretchesShape(facing, ws, |ws|);
    var first, s, last := [WallPanel(facing, 0, At(ws[0]), Full)], Stretches(facing, ws, |ws|),
                          [WallPanel(facing, ws[|ws| - 1] + 1, WallEnd, Full)];
    forall i | 0 <= i < |ws|
      ensures HasWindow(first + s + last, At(ws[i] + 1)) <==> i % 2 == 0
    {
      HasWindowConcat(first, s, At(ws[i] + 1));
      HasWindowConcat(first + s, last, At(ws[i] + 1));
    }
  }

  lemma HasWindowConcat(a: seq<Quad>, b: seq<Quad>, stop: Stop)
    ensures HasWindow(a + b, stop) <==> HasWindow(a, stop) || HasWindow(b, stop)
  {
    if HasWindow(a + b, stop) {
      var k :| 0 <= k < |a + b| && (a + b)[k].WallPanel? && (a + b)[k].band == BelowWindow && (a + b)[k].to == stop;
      if k >= |a| {
        assert (a + b)[k] == b[k - |a|];
      }
    }
    if HasWindow(a, stop) {
      var k :| 0 <= k < |a| && a[k].WallPanel? && a[k].band == BelowWindow && a[k].to == stop;
      assert (a + b)[k] == a[k];
    }
    if HasWindow(b, stop) {
      var k :| 0 <= k < |b| && b[k].WallPanel? && b[k].band == BelowWindow && b[k].to == stop;
      assert (a + b)[|a| + k] == b[k];
    }
  }

  /** The state of `GenerateWall`'s loop after `i` offsets: the mesh holds the first panel and `i`
      stretches after what it held before, the window list the tiles of the first `i` offsets, `skipNext`
      alternates, and the next stretch starts one tile past the last offset. */
  predicate WallState(g: GridView, origin: Point, ws: seq<int>, facing: Direction, i: int,
                      mesh0: seq<Quad>, indices0: seq<int>, mesh: seq<Quad>, indices: seq<int>, skipNext: bool, cStart: int)
  {
    0 <= i <= |ws| && |ws| > 0 &&
    mesh == mesh0 + ([WallPanel(facing, 0, At(ws[0]), Full)] + Stretches(facing, ws, i)) &&
    indices == indices0 + WindowIndices(g, origin, WallAxis(facing), ws, i) &&
    skipNext == (i % 2 == 1) &&
    cStart == if i == 0 then ws[0] else ws[i - 1] + 1
  }

  /** One pass of `GenerateWall`'s loop, from the state before it to the state after it. */
  lemma WallStep(g: GridView, origin: Point, ws: seq<int>, facing: Direction, i: int,
                 mesh0: seq<Quad>, indices0: seq<int>, mesh: seq<Quad>, indices: seq<int>, skipNext: bool, cStart: int,
                 mesh': seq<Quad>, indices': seq<int>)
    requires WallState(g, origin, ws, facing, i, mesh0, indices0, mesh, indices, skipNext, cStart) && i < |ws|
    requires skipNext ==> mesh' == mesh + [WallPanel(facing, cStart, At(ws[i] + 1), Full)] && indices' == indices
    requires !skipNext ==>
               mesh' == mesh + [WallPanel(facing, cStart, At(ws[i] + 1), BelowWindow), WallPanel(facing, cStart, At(ws[i] + 1), AboveWindow)] &&
               indices' == indices + [g.ToIndex(origin.Advance(WallAxis(facing), ws[i]).X, origin.Advance(WallAxis(facing), ws[i]).Y)]
    ensures WallState(g, origin, ws, facing, i + 1, mesh0, indices0, mesh', indices', !skipNext, ws[i] + 1)
  {
    var first := [WallPanel(facing, 0, At(ws[0]), Full)];
    AppendAssoc(mesh0, first + Stretches(facing, ws, i), Stretch(facing, ws, i));
    AppendAssoc(first, Stretches(facing, ws, i), Stretch(facing, ws, i));
    var step := if skipNext then [] else
      [g.ToIndex(origin.Advance(WallAxis(facing), ws[i]).X, origin.Advance(WallAxis(facing), ws[i]).Y)];
    AppendAssoc(indices0, WindowIndices(g, origin, WallAxis(facing), ws, i), step);
  }

  /** After the last offset, the closing panel completes the wall. */
  lemma WallDone(g: GridView, origin: Point, ws: seq<int>, facing: Direction,
                 mesh0: seq<Quad>, indices0: seq<int>, mesh: seq<Quad>, indices: seq<int>, skipNext: bool, cStart: int)
    requires IsCardinal(facing)
    requires WallState(g, origin, ws, facing, |ws|, mesh0, indices0, mesh, indices, skipNext, cStart)
    ensures mesh + [WallPanel(facing, cStart, WallEnd, Full)] == mesh0 + Wall(g, origin, ws, facing).value.0
    ensures indices == indices0 + Wall(g, origin, ws, facing).value.1
  {
    AppendAssoc(mesh0, [WallPanel(facing, 0, At(ws[0]), Full)] + Stretches(facing, ws, |ws|), [WallPanel(facing, cStart, WallEnd, Full)]);
  }

  /** `GenerateWall`, with the mesh and the window list it extends by reference passed in and returned. */
  method GenerateWall(floor: FloorView, origin: Point, validWindowTiles: seq<int>, wallFacing: Direction,
                      meshElement: seq<Quad>, generatedWindowTileIndices: seq<int>)
    returns (r: Result<(seq<Quad>, seq<int>)>)
    ensures r.Throws? <==> Wall(floor.grid, origin, validWindowTiles, wallFacing).Throws?
    ensures r.Throws? ==> r.exception == ArgumentException
    ensures r.Ok? ==> r.value == (meshElement + Wall(floor.grid, origin, validWindowTiles, wallFacing).value.0,
                                  generatedWindowTileIndices + Wall(floor.grid, origin, validWindowTiles, wallFacing).value.1)
  {
    if !IsCardinal(wallFacing) {
      return Throws(ArgumentException);
    }
    var ws := validWindowTiles;
    var mesh, indices := meshElement, generatedWindowTileIndices;
    if |ws| > 0 {
      var deltaDirection := WallAxis(wallFacing);
      mesh := mesh + [WallPanel(wallFacing, 0, At(ws[0]), Full)];
      var cStart := ws[0];
      var skipNext := false;
      for i := 0 to |ws|
        invariant WallState(floor.grid, origin, ws, wallFacing, i, meshElement, generatedWindowTileIndices, mesh, indices,
                            skipNext, cStart)
      {
        var tileOffset := ws[i];
        var cEnd := tileOffset + 1;
        ghost var mesh0, indices0, skipped := mesh, indices, skipNext;
        if skipNext {
          mesh := mesh + [WallPanel(wallFacing, cStart, At(cEnd), Full)];
          skipNext := false;
        } else {
          var nPos := origin.Advance(deltaDirection, tileOffset);
          indices := indices + [floor.grid.ToIndex(nPos.X, nPos.Y)];
          mesh := mesh + [WallPanel(wallFacing, cStart, At(cEnd), BelowWindow), WallPanel(wallFacing, cStart, At(cEnd), AboveWindow)];
          skipNext := true;
        }
        WallStep(floor.grid, origin, ws, wallFacing, i, meshElement, generatedWindowTileIndices, mesh0, indices0, skipped,
                 cStart, mesh, indices);
        cStart := cEnd;
      }
      WallDone(floor.grid, origin, ws, wallFacing, meshElement, generatedWindowTileIndices, mesh, indices, skipNext, cStart);
      mesh := mesh + [WallPanel(wallFacing, cStart, WallEnd, Full)];
    } else {
      mesh := mesh + [WallPanel(wallFacing, 0, WallEnd, Full)];
      assert indices == generatedWindowTileIndices + [];
    }
    return Ok((mesh, indices));
  }

  // ---------------------------------------------------------------------------------------------
  // Rooms

  /** Where the wall of `room` facing `facing` starts: the top-left tile for the North and West walls,
      the first tile of the last row for the South wall, the first tile of the last column for the East
      wall (the room's bottom-right corner is exclusive). */
  function WallOrigin(room: Room, facing: Direction): Point
  {
    var tl, br := room.TopLeft, room.BottomRight;
    match facing
    case South => Point(tl.X, br.Y - 1)
    case East => Point(br.X - 1, tl.Y)
    case _ => tl
  }

  /** The number of tiles the wall runs along: the room's width for North and South, its height otherwise. */
  function WallLength(room: Room, facing: Direction): int
  {
    if IsVertical(facing) then room.BottomRight.X - room.TopLeft.X else room.BottomRight.Y - room.TopLeft.Y
  }

  /** The window scan of a wall starts at the wall's origin, runs along it and tests the neighbours on
      the side it faces. */
  function ScanOf(g: GridView, room: Room, facing: Direction): seq<int>
  {
    WindowOffsets(g, WallOrigin(room, facing), WallAxis(facing), facing, WallLength(room, facing))
  }

  /** The start of each scan as `ExportRoom` writes it: the South and East scans start on row
      `BottomRight.Y` and column `BottomRight.X`, one past the room, and not on the wall's own row and
      column as the North and West scans do. */
  function ScanStartAsWritten(room: Room, facing: Direction): Point
  {
    match facing
    case South => Point(room.TopLeft.X, room.BottomRight.Y)
    case East => Point(room.BottomRight.X, room.TopLeft.Y)
    case _ => room.TopLeft
  }

  /** Every scan tests the tiles just outside the room: the row above it, the column left of it, the row
      below its last row and the column right of its last column. As written, the South and East scans
      test the row and column one further out. */
  lemma ScannedNeighbours(g: GridView, room: Room, k: int)
    ensures var tl, br := room.TopLeft, room.BottomRight;
            (Blocked(g, WallOrigin(room, North), WallAxis(North), North, k) <==> g.CheckUnavailable(tl.X + k, tl.Y - 1)) &&
            (Blocked(g, WallOrigin(room, West), WallAxis(West), West, k) <==> g.CheckUnavailable(tl.X - 1, tl.Y + k)) &&
            (Blocked(g, WallOrigin(room, South), WallAxis(South), South, k) <==> g.CheckUnavailable(tl.X + k, br.Y)) &&
            (Blocked(g, WallOrigin(room, East), WallAxis(East), East, k) <==> g.CheckUnavailable(br.X, tl.Y + k))
    ensures var tl, br := room.TopLeft, room.BottomRight;
            (Blocked(g, ScanStartAsWritten(room, South), East, South, k) <==> g.CheckUnavailable(tl.X + k, br.Y + 1)) &&
            (Blocked(g, ScanStartAsWritten(room, East), South, East, k) <==> g.CheckUnavailable(br.X + 1, tl.Y + k))
  {
  }

  /** A room of three by two tiles in the top rows of a three-column grid whose third row is unavailable
      and whose fourth is vacant: the South wall's scan, started on the room's last row, finds a window in
      the middle; started where `ExportRoom` starts it, it finds none. */
  lemma AsWrittenScanMissesWindow()
    ensures var g := GridView([Vacant, Vacant, Vacant, Vacant, Vacant, Vacant,
                               Unavailable, Unavailable, Unavailable, Vacant, Vacant, Vacant], 3);
            var room := NewRoom().(BottomRight := Point(3, 2));
            ScanOf(g, room, South) == [1] &&
            WindowOffsets(g, ScanStartAsWritten(room, South), East, South, WallLength(room, South)) == []
  {
    var g := GridView([Vacant, Vacant, Vacant, Vacant, Vacant, Vacant,
                       Unavailable, Unavailable, Unavailable, Vacant, Vacant, Vacant], 3);
    var room := NewRoom().(BottomRight := Point(3, 2));
    assert WallOrigin(room, South) == Point(0, 1) && WallLength(room, South) == 3;
    assert g.CheckUnavailable(0, 2) && g.CheckUnavailable(1, 2) && g.CheckUnavailable(2, 2);
    assert !g.CheckUnavailable(0, 3);
    WindowOffsetsStep(g, Point(0, 1), East, South, 2);
    WindowOffsetsStep(g, Point(0, 2), East, South, 2);
  }

  /** What `ExportRoom` adds to the mesh and to the floor's window list: the North, South, West and East
      walls, each with the windows of its scan, then the room's floor. */
  function RoomMesh(v: FloorView, room: Room): (seq<Quad>, seq<int>)
  {
    var n := Wall(v.grid, WallOrigin(room, North), ScanOf(v.grid, room, North), North).value;
    var s := Wall(v.grid, WallOrigin(room, South), ScanOf(v.grid, room, South), South).value;
    var w := Wall(v.grid, WallOrigin(room, West), ScanOf(v.grid, room, West), West).value;
    var e := Wall(v.grid, WallOrigin(room, East), ScanOf(v.grid, room, East), East).value;
    (n.0 + s.0 + w.0 + e.0 + [RoomFloor], n.1 + s.1 + w.1 + e.1)
  }

  /** A window tile recorded for the wall facing `facing`: the tile at offset `m` along the wall, where the
      scan found the tile's outside neighbour and both of the neighbours beside it unavailable. */
  ghost predicate WindowTileOf(g: GridView, room: Room, facing: Direction, t: int)
  {
    exists m :: WindowAt(g, WallOrigin(room, facing), WallAxis(facing), facing, WallLength(room, facing), m) &&
                t == g.ToIndex(WallOrigin(room, facing).Advance(WallAxis(facing), m).X,
                               WallOrigin(room, facing).Advance(WallAxis(facing), m).Y)
  }

  /** The window tiles of one wall: one for every other offset its scan reports, each a window tile of it. */
  lemma ScannedWallWindows(g: GridView, room: Room, facing: Direction)
    requires IsCardinal(facing)
    ensures var w := Wall(g, WallOrigin(room, facing), ScanOf(g, room, facing), facing).value;
            |w.1| == (|ScanOf(g, room, facing)| + 1) / 2 &&
            forall j :: 0 <= j < |w.1| ==> WindowTileOf(g, room, facing, w.1[j])
  {
    var o, ws := WallOrigin(room, facing), ScanOf(g, room, facing);
    WindowOffsetsMeaning(g, o, WallAxis(facing), facing, WallLength(room, facing));
    WallShape(g, o, ws, facing);
    var w := Wall(g, o, ws, facing).value;
    forall j | 0 <= j < |w.1|
      ensures WindowTileOf(g, room, facing, w.1[j])
    {
      assert ws[2 * j] in ws;
    }
  }

  /** Every window tile a room records lies on one of its four walls, facing unavailable tiles; the room's
      mesh ends with its floor. */
  lemma RoomWindows(v: FloorView, room: Room)
    ensures forall t :: t in RoomMesh(v, room).1 ==>
              exists f :: IsCardinal(f) && WindowTileOf(v.grid, room, f, t)
    ensures RoomMesh(v, room).0[|RoomMesh(v, room).0| - 1] == RoomFloor
  {
    ScannedWallWindows(v.grid, room, North);
    ScannedWallWindows(v.grid, room, South);
    ScannedWallWindows(v.grid, room, West);
    ScannedWallWindows(v.grid, room, East);
    var n := Wall(v.grid, WallOrigin(room, North), ScanOf(v.grid, room, North), North).value.1;
    var s := Wall(v.grid, WallOrigin(room, South), ScanOf(v.grid, room, South), South).value.1;
    var w := Wall(v.grid, WallOrigin(room, West), ScanOf(v.grid, room, West), West).value.1;
    var e := Wall(v.grid, WallOrigin(room, East), ScanOf(v.grid, room, East), East).value.1;
    forall t | t in n + s + w + e
      ensures exists f :: IsCardinal(f) && WindowTileOf(v.grid, room, f, t)
    {
      if t in n {
        var j :| 0 <= j < |n| && n[j] == t;
        assert IsCardinal(North) && WindowTileOf(v.grid, room, North, t);
      } else if t in s {
        var j :| 0 <= j < |s| && s[j] == t;
        assert IsCardinal(South) && WindowTileOf(v.grid, room, South, t);
      } else if t in w {
        var j :| 0 <= j < |w| && w[j] == t;
        assert IsCardinal(West) && WindowTileOf(v.grid, room, West, t);
      } else {
        var j :| 0 <= j < |e| && e[j] == t;
        assert IsCardinal(East) && WindowTileOf(v.grid, room, East, t);
      }
    }
  }

  /** The scans of the four walls, spelled out as `ExportRoom` starts them. */
  lemma ScansOfRoom(g: GridView, room: Room)
    ensures var tl, br := room.TopLeft, room.BottomRight;
            ScanOf(g, room, North) == WindowOffsets(g, tl, East, North, br.X - tl.X) &&
            ScanOf(g, room, West) == WindowOffsets(g, tl, South, West, br.Y - tl.Y) &&
            ScanOf(g, room, South) == WindowOffsets(g, Point(tl.X, br.Y - 1), East, South, br.X - tl.X) &&
            ScanOf(g, room, East) == WindowOffsets(g, Point(br.X - 1, tl.Y), South, East, br.Y - tl.Y)
    ensures var tl, br := room.TopLeft, room.BottomRight;
            WallOrigin(room, North) == tl && WallOrigin(room, West) == tl &&
            WallOrigin(room, South) == Point(tl.X, br.Y - 1) && WallOrigin(room, East) == Point(br.X - 1, tl.Y)
  {
    var tl, br := room.TopLeft, room.BottomRight;
    assert WallAxis(North) == East && WallAxis(South) == East && WallAxis(West) == South && WallAxis(East) == South;
    assert WallLength(room, North) == br.X - tl.X && WallLength(room, South) == br.X - tl.X;
    assert WallLength(room, West) == br.Y - tl.Y && WallLength(room, East) == br.Y - tl.Y;
  }

  /** Four walls and a floor appended one after the other to a mesh and a window list. */
  lemma RoomMeshAppend(v: FloorView, room: Room, mesh: seq<Quad>, tiles: seq<int>)
    ensures var n := Wall(v.grid, WallOrigin(room, North), ScanOf(v.grid, room, North), North).value;
            var s := Wall(v.grid, WallOrigin(room, South), ScanOf(v.grid, room, South), South).value;
            var w := Wall(v.grid, WallOrigin(room, West), ScanOf(v.grid, room, West), West).value;
            var e := Wall(v.grid, WallOrigin(room, East), ScanOf(v.grid, room, East), East).value;
            mesh + n.0 + s.0 + w.0 + e.0 + [RoomFloor] == mesh + RoomMesh(v, room).0 &&
            tiles + n.1 + s.1 + w.1 + e.1 == tiles + RoomMesh(v, room).1
  {
    var n := Wall(v.grid, WallOrigin(room, North), ScanOf(v.grid, room, North), North).value;
    var s := Wall(v.grid, WallOrigin(room, South), ScanOf(v.grid, room, South), South).value;
    var w := Wall(v.grid, WallOrigin(room, West), ScanOf(v.grid, room, West), West).value;
    var e := Wall(v.grid, WallOrigin(room, East), ScanOf(v.grid, room, East), East).value;
    AppendFive(mesh, n.0, s.0, w.0, e.0, [RoomFloor]);
    AppendFive(tiles, n.1, s.1, w.1, e.1, []);
    assert tiles + n.1 + s.1 + w.1 + e.1 + [] == tiles + n.1 + s.1 + w.1 + e.1;
    assert n.1 + s.1 + w.1 + e.1 + [] == n.1 + s.1 + w.1 + e.1;
  }

  /** `ExportRoom`, with the floor's window list and the mesh it extends by reference passed in and returned. */
  method ExportRoom(floor: FloorView, room: Room, windowTiles: seq<int>, meshElement: seq<Quad>)
    returns (windowTiles': seq<int>, meshElement': seq<Quad>)
    ensures meshElement' == meshElement + RoomMesh(floor, room).0
    ensures windowTiles' == windowTiles + RoomMesh(floor, room).1
  {
    ScansOfRoom(floor.grid, room);
    RoomMeshAppend(floor, room, meshElement, windowTiles);
    var numHorizontalTiles := room.BottomRight.X - room.TopLeft.X;
    var numVerticalTiles := room.BottomRight.Y - room.TopLeft.Y;
    var validWindowTilesNorth := GenerateListValidWindowTiles(room.TopLeft, numHorizontalTiles, floor, East, North);
    var validWindowTilesWest := GenerateListValidWindowTiles(room.TopLeft, numVerticalTiles, floor, South, West);
    var validWindowTilesSouth := GenerateListValidWindowTiles(Point(room.TopLeft.X, room.BottomRight.Y - 1), numHorizontalTiles,
                                                              floor, East, South);
    var validWindowTilesEast := GenerateListValidWindowTiles(Point(room.BottomRight.X - 1, room.TopLeft.Y), numVerticalTiles,
                                                             floor, South, East);
    var r := GenerateWall(floor, room.TopLeft, validWindowTilesNorth, North, meshElement, windowTiles);
    r := GenerateWall(floor, Point(room.TopLeft.X, room.BottomRight.Y - 1), validWindowTilesSouth, South, r.value.0, r.value.1);
    r := GenerateWall(floor, room.TopLeft, validWindowTilesWest, West, r.value.0, r.value.1);
    r := GenerateWall(floor, Point(room.BottomRight.X - 1, room.TopLeft.Y), validWindowTilesEast, East, r.value.0, r.value.1);
    meshElement' := r.value.0 + [RoomFloor];
    windowTiles' := r.value.1;
  }

  // ---------------------------------------------------------------------------------------------
  // The rooms layer

  /** A room `parent` of a floor stands for `r` in the rooms layer: `r` is one of its children when it has
      any, else `r` is the room itself. */
  predicate Drawn(parent: Room, r: Room)
  {
    if |parent.Children| != 0 then r in parent.Children else r == parent
  }

  /** The rooms the rooms layer draws, in order: each room's children in its place when it has any, the
      room itself otherwise. Only one level is unfolded. */
  function LeafRooms(rooms: seq<Room>): seq<Room>
  {
    if |rooms| == 0 then []
    else
      var last := rooms[|rooms| - 1];
      LeafRooms(rooms[..|rooms| - 1]) + (if |last.Children| != 0 then last.Children else [last])
  }

  /** A room is drawn exactly when a room of the floor stands for it. */
  lemma {:induction false} LeafRoomsMembers(rooms: seq<Room>)
    ensures forall r :: r in LeafRooms(rooms) <==> exists i :: 0 <= i < |rooms| && Drawn(rooms[i], r)
  {
    if |rooms| > 0 {
      var init, last := rooms[..|rooms| - 1], rooms[|rooms| - 1];
      LeafRoomsMembers(init);
      forall r
        ensures r in LeafRooms(rooms) <==> exists i :: 0 <= i < |rooms| && Drawn(rooms[i], r)
      {
        if r in LeafRooms(init) {
          var i :| 0 <= i < |init| && Drawn(init[i], r);
          assert rooms[i] == init[i];
        }
        if exists i :: 0 <= i < |rooms| && Drawn(rooms[i], r) {
          var i :| 0 <= i < |rooms| && Drawn(rooms[i], r);
          if i < |init| {
            assert init[i] == rooms[i];
          }
        }
      }
    }
  }

  lemma LeafRoomsSnoc(rooms: seq<Room>, i: nat)
    requires i < |rooms|
    ensures LeafRooms(rooms[..i + 1]) ==
            LeafRooms(rooms[..i]) + (if |rooms[i].Children| != 0 then rooms[i].Children else [rooms[i]])
  {
    TakeOfTake(rooms, i);
  }

  /** What `ExportRoom` adds for each of `rooms` in turn. */
  function RoomsMesh(v: FloorView, rooms: seq<Room>): (seq<Quad>, seq<int>)
  {
    if |rooms| == 0 then ([], [])
    else
      var prev, last := RoomsMesh(v, rooms[..|rooms| - 1]), RoomMesh(v, rooms[|rooms| - 1]);
      (prev.0 + last.0, prev.1 + last.1)
  }

  lemma RoomsMeshSnoc(v: FloorView, rooms: seq<Room>, r: Room)
    ensures RoomsMesh(v, rooms + [r]) == (RoomsMesh(v, rooms).0 + RoomMesh(v, r).0, RoomsMesh(v, rooms).1 + RoomMesh(v, r).1)
  {
    assert (rooms + [r])[..|rooms|] == rooms;
  }

  /** Every window tile of a list of rooms is a window tile of a wall of one of them. */
  lemma {:induction false} RoomsMeshWindows(v: FloorView, rooms: seq<Room>)
    ensures forall t :: t in RoomsMesh(v, rooms).1 ==>
              exists i, f :: 0 <= i < |rooms| && IsCardinal(f) && WindowTileOf(v.grid, rooms[i], f, t)
  {
    if |rooms| > 0 {
      var init, last := rooms[..|rooms| - 1], rooms[|rooms| - 1];
      RoomsMeshWindows(v, init);
      RoomWindows(v, last);
      forall t | t in RoomsMesh(v, rooms).1
        ensures exists i, f :: 0 <= i < |rooms| && IsCardinal(f) && WindowTileOf(v.grid, rooms[i], f, t)
      {
        if t in RoomsMesh(v, init).1 {
          var i, f :| 0 <= i < |init| && IsCardinal(f) && WindowTileOf(v.grid, init[i], f, t);
          assert rooms[i] == init[i];
        } else {
          var f :| IsCardinal(f) && WindowTileOf(v.grid, last, f, t);
          assert rooms[|rooms| - 1] == last;
        }
      }
    }
  }

  /** The mesh and the window list of one floor of the rooms layer. */
  function RoomsFloor(v: FloorView): (seq<Quad>, seq<int>)
  {
    RoomsMesh(v, LeafRooms(v.rooms))
  }

  /** `ExportRoomsLayer`: the layer, and the window list of every floor index. */
  function RoomsOf(floors: seq<FloorView>): (Layer, map<int, seq<int>>)
  {
    (Layer(RoomsLayer, seq(|floors|, n requires 0 <= n < |floors| => RoomsFloor(floors[n]).0)),
     map n | 0 <= n < |floors| :: RoomsFloor(floors[n]).1)
  }

  /** The rooms layer has one floor element per floor and a window list for every floor index and no
      other; every window tile of a floor lies on a wall of a room the layer draws, facing unavailable
      tiles. */
  lemma RoomsLayerWindows(floors: seq<FloorView>)
    ensures |RoomsOf(floors).0.floors| == |floors|
    ensures forall n :: n in RoomsOf(floors).1 <==> 0 <= n < |floors|
    ensures forall n, t :: 0 <= n < |floors| && t in RoomsOf(floors).1[n] ==>
              exists r, f :: r in LeafRooms(floors[n].rooms) && IsCardinal(f) && WindowTileOf(floors[n].grid, r, f, t)
  {
    forall n, t | 0 <= n < |floors| && t in RoomsOf(floors).1[n]
      ensures exists r, f :: r in LeafRooms(floors[n].rooms) && IsCardinal(f) && WindowTileOf(floors[n].grid, r, f, t)
    {
      var rooms := LeafRooms(floors[n].rooms);
      RoomsMeshWindows(floors[n], rooms);
      var i, f :| 0 <= i < |rooms| && IsCardinal(f) && WindowTileOf(floors[n].grid, rooms[i], f, t);
      assert rooms[i] in rooms;
    }
  }

  /** One more room drawn after `rooms`: its `ExportRoom` output extends the mesh and the window list. */
  lemma RoomsStep(v: FloorView, rooms: seq<Room>, r: Room, mesh: seq<Quad>, tiles: seq<int>,
                  mesh': seq<Quad>, tiles': seq<int>)
    requires (mesh, tiles) == RoomsMesh(v, rooms)
    requires mesh' == mesh + RoomMesh(v, r).0 && tiles' == tiles + RoomMesh(v, r).1
    ensures (mesh', tiles') == RoomsMesh(v, rooms + [r])
  {
    RoomsMeshSnoc(v, rooms, r);
  }

  /** The next child of a room drawn after `done` and the children before it. */
  lemma ChildStep(v: FloorView, done: seq<Room>, ch: seq<Room>, j: nat, mesh: seq<Quad>, tiles: seq<int>,
                  mesh': seq<Quad>, tiles': seq<int>)
    requires j < |ch|
    requires (mesh, tiles) == RoomsMesh(v, done + ch[..j])
    requires mesh' == mesh + RoomMesh(v, ch[j]).0 && tiles' == tiles + RoomMesh(v, ch[j]).1
    ensures (mesh', tiles') == RoomsMesh(v, done + ch[..j + 1])
  {
    AppendTakeSnoc(done, ch, j);
    RoomsStep(v, done + ch[..j], ch[j], mesh, tiles, mesh', tiles');
  }

  /** The body of `ExportRoomsLayer`'s loop over the floors: every room of the floor, or its children. */
  method ExportRoomsOfFloor(floor: FloorView) returns (windowTiles: seq<int>, meshElement: seq<Quad>)
    ensures (meshElement, windowTiles) == RoomsFloor(floor)
  {
    windowTiles, meshElement := [], [];
    for i := 0 to |floor.rooms|
      invariant (meshElement, windowTiles) == RoomsMesh(floor, LeafRooms(floor.rooms[..i]))
    {
      var room := floor.rooms[i];
      ghost var done := LeafRooms(floor.rooms[..i]);
      LeafRoomsSnoc(floor.rooms, i);
      if |room.Children| != 0 {
        assert done + room.Children[..0] == done;
        for j := 0 to |room.Children|
          invariant (meshElement, windowTiles) == RoomsMesh(floor, done + room.Children[..j])
        {
          ghost var mesh0, tiles0 := meshElement, windowTiles;
          windowTiles, meshElement := ExportRoom(floor, room.Children[j], windowTiles, meshElement);
          ChildStep(floor, done, room.Children, j, mesh0, tiles0, meshElement, windowTiles);
        }
        assert room.Children[..|room.Children|] == room.Children;
      } else {
        ghost var mesh0, tiles0 := meshElement, windowTiles;
        windowTiles, meshElement := ExportRoom(floor, room, windowTiles, meshElement);
        RoomsStep(floor, done, room, mesh0, tiles0, meshElement, windowTiles);
      }
    }
    assert floor.rooms[..|floor.rooms|] == floor.rooms;
  }

  method ExportRoomsLayer(floors: seq<FloorView>) returns (layer: Layer, generatedWindowTiles: map<int, seq<int>>)
    ensures (layer, generatedWindowTiles) == RoomsOf(floors)
  {
    generatedWindowTiles := map[];
    var meshes := [];
    for n := 0 to |floors|
      invariant |meshes| == n && forall k :: 0 <= k < n ==> meshes[k] == RoomsFloor(floors[k]).0
      invariant forall k :: k in generatedWindowTiles <==> 0 <= k < n
      invariant forall k :: 0 <= k < n ==> generatedWindowTiles[k] == RoomsFloor(floors[k]).1
    {
      var windowTiles, meshElement := ExportRoomsOfFloor(floors[n]);
      meshes := meshes + [meshElement];
      generatedWindowTiles := generatedWindowTiles[n := windowTiles];
    }
    layer := Layer(RoomsLayer, meshes);
    assert meshes == RoomsOf(floors).0.floors;
    assert generatedWindowTiles == RoomsOf(floors).1;
  }
}

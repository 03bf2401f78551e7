/** The remaining layer writers of the generator's mesh exporter (BuildGen/Common/IO/BuildingXmlIo.cs):
    passages, exterior walls, interior floors, the ceiling, and `ExportBuildingMesh`, which writes the
    five layers of a building. The rooms layer is in module `GeneratorMesh`. */
module GeneratorLayers {
  import opened Wrappers
  import opened Seqs
  import opened Directions
  import opened Points
  import opened Rectangles
  import opened Grids
  import opened Entrances
  import opened Rooms
  import opened Floors
  import opened Buildings
  import opened MeshParts
  import opened GeneratorMesh

  // ---------------------------------------------------------------------------------------------
  // The passages layer

  /** A Passage entrance stands on `p` and `d` is the side opposite its facing: the side it is entered
      from. Both the passage layer (no wall there) and the exterior layer (a doorway there) test this. */
  predicate FacesPassageEntrance(v: FloorView, p: Point, d: Direction)
  {
    var e := v.EntranceAt(p.X, p.Y);
    e.Some? && e.value.Type == EntranceType.Passage && d == GetOpposite(e.value.Direction)
  }

  /** The wall of side `d` of passage tile `t` at `p`, when that side is walled. */
  function PassageWall(v: FloorView, p: Point, t: nat, d: Direction): seq<Quad>
  {
    if !FacesPassageEntrance(v, p, d) && OpenSide(v.grid, p, d) then [TileWall(t, d)] else []
  }

  /** The walls of a passage tile, in the order North, South, West, East of the `walls` array. */
  function PassageWalls(v: FloorView, p: Point, t: nat): seq<Quad>
  {
    PassageWall(v, p, t, North) + PassageWall(v, p, t, South) + PassageWall(v, p, t, West) + PassageWall(v, p, t, East)
  }

  /** The first floor of a passage tile: flat without an entrance, a ramp for an entrance facing West,
      East or South, and nothing for an entrance facing North or Unspecified, which the `switch` skips. */
  function PassageFloor(v: FloorView, p: Point, t: nat): seq<Quad>
  {
    var e := v.EntranceAt(p.X, p.Y);
    if e.None? then [TileFloor(t, false)]
    else if e.value.Direction == West || e.value.Direction == East || e.value.Direction == South then
      [Ramp(t, e.value.Direction)]
    else []
  }

  /** A passage piece: a flat floor, a ramp or a wall. */
  predicate PassagePiece(q: Quad)
  {
    q.TileFloor? || q.Ramp? || q.TileWall?
  }

  /** The walls of a passage tile: a side is walled exactly when its neighbour is off the grid or not
      walkable and it is not the side a Passage entrance opens to. */
  lemma PassageWallsMeaning(v: FloorView, p: Point, t: nat)
    ensures forall q :: q in PassageWalls(v, p, t) ==> q.TileWall? && q.tile == t
    ensures forall d :: TileWall(t, d) in PassageWalls(v, p, t) <==>
              IsCardinal(d) && OpenSide(v.grid, p, d) && !FacesPassageEntrance(v, p, d)
    ensures |PassageWalls(v, p, t)| <= 4
  {
    var n, s, w, e := PassageWall(v, p, t, North), PassageWall(v, p, t, South), PassageWall(v, p, t, West),
                      PassageWall(v, p, t, East);
    assert PassageWalls(v, p, t) == n + s + w + e;
    forall q | q in PassageWalls(v, p, t)
      ensures q.TileWall? && q.tile == t
    {
      assert q in n || q in s || q in w || q in e;
    }
  }

  /** The first floor of a passage tile: a flat floor exactly when no entrance stands there, and a ramp
      in the entrance's facing when it faces West, East or South. */
  lemma PassageFloorMeaning(v: FloorView, p: Point, t: nat)
    ensures forall q :: q in PassageFloor(v, p, t) ==> (q.TileFloor? || q.Ramp?) && q.tile == t
    ensures TileFloor(t, false) in PassageFloor(v, p, t) <==> v.EntranceAt(p.X, p.Y).None?
    ensures TileFloor(t, true) !in PassageFloor(v, p, t)
    ensures forall d :: Ramp(t, d) in PassageFloor(v, p, t) <==>
              v.EntranceAt(p.X, p.Y).Some? && v.EntranceAt(p.X, p.Y).value.Direction == d &&
              (d == West || d == East || d == South)
  {
  }

  /** What `ExportPassagesLayer` writes for the Passage or Other tile `t`: its floor, its walls and the
      reversed floor; every piece belongs to the tile and the reversed floor comes last. */
  function PassageTile(v: FloorView, t: nat): (r: seq<Quad>)
    requires v.grid.Valid() && t < |v.grid.tiles|
    ensures forall q :: q in r ==> PassagePiece(q) && q.tile == t
    ensures |r| > 0 && r[|r| - 1] == TileFloor(t, true)
  {
    var p := TilePosition(v.grid, t);
    PassageWallsMeaning(v, p, t);
    PassageFloorMeaning(v, p, t);
    PassageFloor(v, p, t) + PassageWalls(v, p, t) + [TileFloor(t, true)]
  }

  /** The mesh of the first `n` tiles of a floor in the passages layer. */
  function PassageTiles(v: FloorView, n: nat): seq<Quad>
    requires v.grid.Valid() && n <= |v.grid.tiles|
  {
    if n == 0 then []
    else PassageTiles(v, n - 1) + (if Walkable(v.grid.tiles[n - 1]) then PassageTile(v, n - 1) else [])
  }

  /** The pieces of one passage tile, at its position: the walls and the first floor as above, and two
      triangles per wall plus two or four more. */
  lemma PassageTileShape(v: FloorView, t: nat)
    requires v.grid.Valid() && t < |v.grid.tiles|
    ensures var p := TilePosition(v.grid, t);
            (forall d :: TileWall(t, d) in PassageTile(v, t) <==>
               IsCardinal(d) && OpenSide(v.grid, p, d) && !FacesPassageEntrance(v, p, d)) &&
            (TileFloor(t, false) in PassageTile(v, t) <==> v.EntranceAt(p.X, p.Y).None?) &&
            (forall d :: Ramp(t, d) in PassageTile(v, t) <==>
               v.EntranceAt(p.X, p.Y).Some? && v.EntranceAt(p.X, p.Y).value.Direction == d &&
               (d == West || d == East || d == South)) &&
            Triangles(PassageTile(v, t)) == 2 * |PassageWalls(v, p, t)| + 2 * |PassageFloor(v, p, t)| + 2
  {
    var p := TilePosition(v.grid, t);
    var f, w := PassageFloor(v, p, t), PassageWalls(v, p, t);
    PassageWallsMeaning(v, p, t);
    PassageFloorMeaning(v, p, t);
    assert PassageTile(v, t) == f + w + [TileFloor(t, true)];
  }

  /** A floor of the passages layer: the reversed floor of tile `t` is in the mesh exactly when `t` is a
      Passage or Other tile, and every piece belongs to such a tile. */
  lemma {:induction false} PassageTilesMembers(v: FloorView, n: nat)
    requires v.grid.Valid() && n <= |v.grid.tiles|
    ensures forall t: nat :: TileFloor(t, true) in PassageTiles(v, n) <==> t < n && Walkable(v.grid.tiles[t])
    ensures forall q :: q in PassageTiles(v, n) ==> PassagePiece(q) && q.tile < n && Walkable(v.grid.tiles[q.tile])
  {
    if n > 0 {
      PassageTilesMembers(v, n - 1);
      PassageStep(v, n);
    }
  }

  lemma PassageStep(v: FloorView, n: nat)
    requires v.grid.Valid() && 0 < n <= |v.grid.tiles|
    requires PassageFacts(v.grid.tiles, PassageTiles(v, n - 1), n - 1)
    ensures PassageFacts(v.grid.tiles, PassageTiles(v, n), n)
  {
    var prev := PassageTiles(v, n - 1);
    var last := if Walkable(v.grid.tiles[n - 1]) then PassageTile(v, n - 1) else [];
    assert PassageTiles(v, n) == prev + last;
    PassageSnoc(v.grid.tiles, prev, n, last);
  }

  /** The two facts of `PassageTilesMembers` about the mesh `qs` of the first `n` of the tiles `ts`. */
  ghost predicate PassageFacts(ts: seq<FloorTileType>, qs: seq<Quad>, n: nat)
    requires n <= |ts|
  {
    (forall t: nat :: TileFloor(t, true) in qs <==> t < n && Walkable(ts[t])) &&
    (forall q :: q in qs ==> PassagePiece(q) && q.tile < n && Walkable(ts[q.tile]))
  }

  /** One tile more keeps the two facts, whatever the pieces of that tile, as long as they belong to it
      and end with its reversed floor. */
  lemma PassageSnoc(ts: seq<FloorTileType>, prev: seq<Quad>, n: nat, last: seq<Quad>)
    requires 0 < n <= |ts| && PassageFacts(ts, prev, n - 1)
    requires |last| > 0 <==> Walkable(ts[n - 1])
    requires forall q :: q in last ==> PassagePiece(q) && q.tile == n - 1
    requires |last| > 0 ==> last[|last| - 1] == TileFloor(n - 1, true)
    ensures PassageFacts(ts, prev + last, n)
  {
    if |last| > 0 {
      assert TileFloor(n - 1, true) in last;
    }
  }

  /** One floor of the passages layer. */
  function PassageMesh(v: FloorView): seq<Quad>
    requires v.grid.Valid()
  {
    PassageTiles(v, |v.grid.tiles|)
  }

  /** `ExportPassagesLayer`: one floor element per floor. */
  function PassagesOf(floors: seq<FloorView>): (r: Layer)
    requires GridsValid(floors)
  {
    Layer(PassagesLayer, seq(|floors|, n requires 0 <= n < |floors| => PassageMesh(floors[n])))
  }

  /** The body of `ExportPassagesLayer`'s loop over the floors. */
  method ExportPassagesFloor(floor: FloorView) returns (meshElement: seq<Quad>)
    requires floor.grid.Valid()
    ensures meshElement == PassageMesh(floor)
  {
    meshElement := [];
    for tileIndex := 0 to |floor.grid.tiles|
      invariant meshElement == PassageTiles(floor, tileIndex)
    {
      if Walkable(floor.grid.tiles[tileIndex]) {
        meshElement := meshElement + PassageTile(floor, tileIndex);
      }
    }
  }

  method ExportPassagesLayer(floors: seq<FloorView>) returns (layer: Layer)
    requires GridsValid(floors)
    ensures layer == PassagesOf(floors)
  {
    var meshes := [];
    for n := 0 to |floors|
      invariant |meshes| == n && forall k :: 0 <= k < n ==> meshes[k] == PassageMesh(floors[k])
    {
      var meshElement := ExportPassagesFloor(floors[n]);
      meshes := meshes + [meshElement];
    }
    layer := Layer(PassagesLayer, meshes);
  }

  // ---------------------------------------------------------------------------------------------
  // The exterior wall layer

  /** What a side of an exterior wall tile carries. */
  datatype WallFeature = NoFeature | Doorway | Window

  /** The side of the tile at `p` facing `d` looks onto an unavailable tile or off the grid. */
  predicate FacesOut(g: GridView, p: Point, d: Direction)
  {
    var q := p.Advance(d, 1);
    g.CheckUnavailable(q.X, q.Y)
  }

  /** The feature `ExportExteriorWallLayer` gives side `d` of the tile at `p`: a doorway where a Passage
      entrance opens, else a window when the tile is on the floor's window list, else none. */
  function Feature(v: FloorView, p: Point, d: Direction, hasWindow: bool): WallFeature
  {
    if FacesPassageEntrance(v, p, d) then Doorway else if hasWindow then Window else NoFeature
  }

  /** `GenerateWallTile`: ArgumentException for a non-cardinal facing, else the panels of one side of tile
      `t`: below and above a window, above a doorway, or one full-height panel. */
  function WallTilePieces(t: nat, feature: WallFeature, facing: Direction): (r: Result<seq<Quad>>)
    ensures r.Throws? <==> !IsCardinal(facing)
    ensures r.Throws? ==> r.exception == ArgumentException
    ensures r.Ok? ==> |r.value| == (if feature == Window then 2 else 1) &&
                      forall q :: q in r.value ==> q.WallTile? && q.tile == t && q.facing == facing
    ensures r.Ok? ==> forall q :: q in r.value ==>
              (q.band == Full <==> feature == NoFeature) && (q.band == AboveDoorway <==> feature == Doorway) &&
              (q.band == BelowWindow || q.band == AboveWindow <==> feature == Window)
  {
    if !IsCardinal(facing) then Throws(ArgumentException)
    else
      match feature
      case Window => Ok([WallTile(t, facing, BelowWindow), WallTile(t, facing, AboveWindow)])
      case Doorway => Ok([WallTile(t, facing, AboveDoorway)])
      case NoFeature => Ok([WallTile(t, facing, Full)])
  }

  /** The panels of side `d` of tile `t` at `p`: none unless the side faces out. */
  function ExteriorSide(v: FloorView, p: Point, t: nat, d: Direction, hasWindow: bool): seq<Quad>
    requires IsCardinal(d)
  {
    if FacesOut(v.grid, p, d) then WallTilePieces(t, Feature(v, p, d, hasWindow), d).value else []
  }

  /** The sides of the tile at `p` North, South, West and East, in the order of the `cdir` loop. */
  function ExteriorSides(v: FloorView, p: Point, t: nat, hasWindow: bool): seq<Quad>
  {
    ExteriorSide(v, p, t, North, hasWindow) + ExteriorSide(v, p, t, South, hasWindow) +
    ExteriorSide(v, p, t, West, hasWindow) + ExteriorSide(v, p, t, East, hasWindow)
  }

  /** What `ExportExteriorWallLayer` writes for tile `t`: nothing for an unavailable tile, else its sides. */
  function ExteriorTile(v: FloorView, ws: seq<int>, t: nat): seq<Quad>
    requires v.grid.Valid() && t < |v.grid.tiles|
  {
    var p := TilePosition(v.grid, t);
    if v.grid.CheckUnavailable(p.X, p.Y) then [] else ExteriorSides(v, p, t, t in ws)
  }

  /** The band of an exterior panel follows the feature rule of its side. */
  predicate BandChosen(v: FloorView, p: Point, q: Quad, hasWindow: bool)
    requires q.WallTile?
  {
    (q.band == AboveDoorway <==> FacesPassageEntrance(v, p, q.facing)) &&
    (q.band == Full <==> !FacesPassageEntrance(v, p, q.facing) && !hasWindow) &&
    (q.band == BelowWindow || q.band == AboveWindow <==> !FacesPassageEntrance(v, p, q.facing) && hasWindow)
  }

  /** The sides that carry panels. */
  function Facings(qs: seq<Quad>): set<Direction>
  {
    set q | q in qs && q.WallTile? :: q.facing
  }

  /** At its position, the tile available exactly when `ToPosition` then `CheckUnavailable` says so. */
  lemma TileUnavailable(g: GridView, t: nat)
    requires g.Valid() && t < |g.tiles|
    ensures var p := TilePosition(g, t); g.CheckUnavailable(p.X, p.Y) <==> g.tiles[t] == Unavailable
  {
  }

  lemma ExteriorSideMeaning(v: FloorView, p: Point, t: nat, d: Direction, hasWindow: bool)
    requires IsCardinal(d)
    ensures forall q :: q in ExteriorSide(v, p, t, d, hasWindow) ==>
              q.WallTile? && q.tile == t && q.facing == d && BandChosen(v, p, q, hasWindow)
    ensures |ExteriorSide(v, p, t, d, hasWindow)| > 0 <==> FacesOut(v.grid, p, d)
  {
  }

  /** Every panel of the sides belongs to the tile, on a side that faces out, with the band the feature
      rule chooses. */
  lemma ExteriorSidesPanels(v: FloorView, p: Point, t: nat, w: bool)
    ensures forall q :: q in ExteriorSides(v, p, t, w) ==>
              q.WallTile? && q.tile == t && IsCardinal(q.facing) && FacesOut(v.grid, p, q.facing) && BandChosen(v, p, q, w)
  {
    var n, s, we, e := ExteriorSide(v, p, t, North, w), ExteriorSide(v, p, t, South, w),
                       ExteriorSide(v, p, t, West, w), ExteriorSide(v, p, t, East, w);
    ExteriorSideMeaning(v, p, t, North, w);
    ExteriorSideMeaning(v, p, t, South, w);
    ExteriorSideMeaning(v, p, t, West, w);
    ExteriorSideMeaning(v, p, t, East, w);
    assert ExteriorSides(v, p, t, w) == n + s + we + e;
  }

  /** The sides that face out, and only they, carry panels. */
  lemma ExteriorSidesFacings(v: FloorView, p: Point, t: nat, w: bool)
    ensures forall d :: d in Facings(ExteriorSides(v, p, t, w)) <==> IsCardinal(d) && FacesOut(v.grid, p, d)
  {
    var all := ExteriorSides(v, p, t, w);
    ExteriorSidesPanels(v, p, t, w);
    forall d | IsCardinal(d) && FacesOut(v.grid, p, d)
      ensures d in Facings(all)
    {
      var n, s, we, e := ExteriorSide(v, p, t, North, w), ExteriorSide(v, p, t, South, w),
                         ExteriorSide(v, p, t, West, w), ExteriorSide(v, p, t, East, w);
      assert all == n + s + we + e;
      ExteriorSideMeaning(v, p, t, d, w);
      var side := ExteriorSide(v, p, t, d, w);
      assert side[0] in all;
    }
  }

  /** An available tile has panels on exactly the sides that face out, one per side or two for a window,
      with the band the feature rule chooses; an unavailable tile has none. */
  lemma ExteriorTileMeaning(v: FloorView, ws: seq<int>, t: nat)
    requires v.grid.Valid() && t < |v.grid.tiles|
    ensures var p := TilePosition(v.grid, t);
            (forall q :: q in ExteriorTile(v, ws, t) ==>
               q.WallTile? && q.tile == t && v.grid.tiles[t] != Unavailable && IsCardinal(q.facing) &&
               FacesOut(v.grid, p, q.facing) && BandChosen(v, p, q, t in ws)) &&
            (forall d :: d in Facings(ExteriorTile(v, ws, t)) <==>
               v.grid.tiles[t] != Unavailable && IsCardinal(d) && FacesOut(v.grid, p, d))
  {
    TileUnavailable(v.grid, t);
    ExteriorSidesPanels(v, TilePosition(v.grid, t), t, t in ws);
    ExteriorSidesFacings(v, TilePosition(v.grid, t), t, t in ws);
  }

  /** The mesh of the first `n` tiles of a floor in the exterior wall layer. */
  function ExteriorTiles(v: FloorView, ws: seq<int>, n: nat): seq<Quad>
    requires v.grid.Valid() && n <= |v.grid.tiles|
  {
    if n == 0 then [] else ExteriorTiles(v, ws, n - 1) + ExteriorTile(v, ws, n - 1)
  }

  /** Every panel of a floor of the exterior wall layer is one its own tile writes. */
  lemma {:induction false} ExteriorTilesMembers(v: FloorView, ws: seq<int>, n: nat)
    requires v.grid.Valid() && n <= |v.grid.tiles|
    ensures forall q :: q in ExteriorTiles(v, ws, n) ==>
              q.WallTile? && q.tile < n && q in ExteriorTile(v, ws, q.tile)
  {
    if n > 0 {
      ExteriorTilesMembers(v, ws, n - 1);
      ExteriorTileMeaning(v, ws, n - 1);
    }
  }

  /** One floor of the exterior wall layer, with that floor's window list. */
  function ExteriorMesh(v: FloorView, ws: seq<int>): seq<Quad>
    requires v.grid.Valid()
  {
    ExteriorTiles(v, ws, |v.grid.tiles|)
  }

  /** `ExportExteriorWallLayer`: KeyNotFoundException when a floor index has no window list. */
  function ExteriorOf(floors: seq<FloorView>, windows: map<int, seq<int>>): (r: Result<Layer>)
    requires GridsValid(floors)
    ensures r.Throws? <==> exists n :: 0 <= n < |floors| && n !in windows
    ensures r.Throws? ==> r.exception == KeyNotFoundException
    ensures r.Ok? ==> r.value.kind == ExteriorWallLayer && |r.value.floors| == |floors|
  {
    if exists n :: 0 <= n < |floors| && n !in windows then Throws(KeyNotFoundException)
    else Ok(Layer(ExteriorWallLayer, seq(|floors|, n requires 0 <= n < |floors| => ExteriorMesh(floors[n], windows[n]))))
  }

  /** With the window lists of the rooms layer the exterior wall layer never throws, and a window panel
      stands only on a tile the rooms layer made a window of. */
  lemma ExteriorOfRooms(floors: seq<FloorView>)
    requires GridsValid(floors)
    ensures ExteriorOf(floors, RoomsOf(floors).1).Ok?
    ensures forall n, q ::
              0 <= n < |floors| && q in ExteriorOf(floors, RoomsOf(floors).1).value.floors[n] && q.WallTile? &&
              q.band == BelowWindow
              ==> q.tile in RoomsFloor(floors[n]).1
  {
    RoomsLayerWindows(floors);
    var windows := RoomsOf(floors).1;
    forall n, q | 0 <= n < |floors| && q in ExteriorOf(floors, windows).value.floors[n] && q.WallTile? &&
                  q.band == BelowWindow
      ensures q.tile in RoomsFloor(floors[n]).1
    {
      var v := floors[n];
      ExteriorTilesMembers(v, windows[n], |v.grid.tiles|);
      ExteriorTileMeaning(v, windows[n], q.tile);
    }
  }

  method ExportExteriorWallFloor(floor: FloorView, floorWindowTiles: seq<int>) returns (meshElement: seq<Quad>)
    requires floor.grid.Valid()
    ensures meshElement == ExteriorMesh(floor, floorWindowTiles)
  {
    meshElement := [];
    for tile := 0 to |floor.grid.tiles|
      invariant meshElement == ExteriorTiles(floor, floorWindowTiles, tile)
    {
      meshElement := meshElement + ExteriorTile(floor, floorWindowTiles, tile);
    }
  }

  method ExportExteriorWallLayer(floors: seq<FloorView>, windowTiles: map<int, seq<int>>) returns (r: Result<Layer>)
    requires GridsValid(floors)
    ensures r == ExteriorOf(floors, windowTiles)
  {
    var meshes := [];
    for floorIndex := 0 to |floors|
      invariant |meshes| == floorIndex
      invariant forall k :: 0 <= k < floorIndex ==> k in windowTiles && meshes[k] == ExteriorMesh(floors[k], windowTiles[k])
    {
      if floorIndex !in windowTiles {
        return Throws(KeyNotFoundException);
      }
      var meshElement := ExportExteriorWallFloor(floors[floorIndex], windowTiles[floorIndex]);
      meshes := meshes + [meshElement];
    }
    assert meshes == ExteriorOf(floors, windowTiles).value.floors;
    r := Ok(Layer(ExteriorWallLayer, meshes));
  }

  // ---------------------------------------------------------------------------------------------
  // The interior floor layer

  /** The mesh of the first `n` tiles of a floor in the interior floor layer: one floor per available tile. */
  function InteriorTiles(v: FloorView, n: nat): seq<Quad>
    requires v.grid.Valid() && n <= |v.grid.tiles|
  {
    if n == 0 then []
    else
      var p := TilePosition(v.grid, n - 1);
      InteriorTiles(v, n - 1) + (if v.grid.CheckUnavailable(p.X, p.Y) then [] else [InteriorTile(n - 1)])
  }

  /** The interior floor covers exactly the available tiles, each once and in index order. */
  lemma {:induction false} InteriorTilesMembers(v: FloorView, n: nat)
    requires v.grid.Valid() && n <= |v.grid.tiles|
    ensures forall q :: q in InteriorTiles(v, n) ==> q.InteriorTile? && q.tile < n
    ensures forall t: nat :: InteriorTile(t) in InteriorTiles(v, n) <==> t < n && v.grid.tiles[t] != Unavailable
    ensures forall i, j :: 0 <= i < j < |InteriorTiles(v, n)| ==> InteriorTiles(v, n)[i].tile < InteriorTiles(v, n)[j].tile
  {
    if n > 0 {
      InteriorTilesMembers(v, n - 1);
      InteriorStep(v, n);
    }
  }

  lemma InteriorStep(v: FloorView, n: nat)
    requires v.grid.Valid() && 0 < n <= |v.grid.tiles|
    requires InteriorFacts(v.grid.tiles, InteriorTiles(v, n - 1), n - 1)
    ensures InteriorFacts(v.grid.tiles, InteriorTiles(v, n), n)
  {
    TileUnavailable(v.grid, n - 1);
    InteriorSnoc(v.grid.tiles, InteriorTiles(v, n - 1), n, InteriorTiles(v, n));
  }

  /** The three facts of `InteriorTilesMembers` about the mesh `qs` of the first `n` of the tiles `ts`. */
  ghost predicate InteriorFacts(ts: seq<FloorTileType>, qs: seq<Quad>, n: nat)
    requires n <= |ts|
  {
    (forall q :: q in qs ==> q.InteriorTile? && q.tile < n) &&
    (forall t: nat :: InteriorTile(t) in qs <==> t < n && ts[t] != Unavailable) &&
    (forall i, j :: 0 <= i < j < |qs| ==> qs[i].tile < qs[j].tile)
  }

  /** One tile more keeps the three facts. */
  lemma InteriorSnoc(ts: seq<FloorTileType>, prev: seq<Quad>, n: nat, cur: seq<Quad>)
    requires 0 < n <= |ts| && InteriorFacts(ts, prev, n - 1)
    requires cur == prev + (if ts[n - 1] == Unavailable then [] else [InteriorTile(n - 1)])
    ensures InteriorFacts(ts, cur, n)
  {
    if ts[n - 1] != Unavailable {
      forall i, j | 0 <= i < j < |cur|
        ensures cur[i].tile < cur[j].tile
      {
        if j == |prev| {
          assert cur[i] in prev;
        }
      }
    } else {
      assert cur == prev;
    }
  }

  /** One floor of the interior floor layer. */
  function InteriorMesh(v: FloorView): seq<Quad>
    requires v.grid.Valid()
  {
    InteriorTiles(v, |v.grid.tiles|)
  }

  /** `ExportInteriorFloorLayer`: one floor element per floor. */
  function InteriorOf(floors: seq<FloorView>): Layer
    requires GridsValid(floors)
  {
    Layer(InteriorFloorLayer, seq(|floors|, n requires 0 <= n < |floors| => InteriorMesh(floors[n])))
  }

  method ExportInteriorFloor(floor: FloorView) returns (meshElement: seq<Quad>)
    requires floor.grid.Valid()
    ensures meshElement == InteriorMesh(floor)
  {
    meshElement := [];
    for tile := 0 to |floor.grid.tiles|
      invariant meshElement == InteriorTiles(floor, tile)
    {
      var origPos := TilePosition(floor.grid, tile);
      if !floor.grid.CheckUnavailable(origPos.X, origPos.Y) {
        meshElement := meshElement + [InteriorTile(tile)];
      }
    }
  }

  method ExportInteriorFloorLayer(floors: seq<FloorView>) returns (layer: Layer)
    requires GridsValid(floors)
    ensures layer == InteriorOf(floors)
  {
    var meshes := [];
    for floorIndex := 0 to |floors|
      invariant |meshes| == floorIndex && forall k :: 0 <= k < floorIndex ==> meshes[k] == InteriorMesh(floors[k])
    {
      var meshElement := ExportInteriorFloor(floors[floorIndex]);
      meshes := meshes + [meshElement];
    }
    layer := Layer(InteriorFloorLayer, meshes);
  }

  // ---------------------------------------------------------------------------------------------
  // The ceiling layer

  /** The roof over the top floor: one piece per rectangle of `FindRectanglesExclusive(Unavailable)`. */
  function Roofs(g: GridView): (r: seq<Quad>)
    ensures |r| == |g.FindRects(Unavailable, true)|
    ensures forall k :: 0 <= k < |r| ==> r[k] == Roof(g.FindRects(Unavailable, true)[k])
  {
    var rs := g.FindRects(Unavailable, true);
    seq(|rs|, k requires 0 <= k < |rs| => Roof(rs[k]))
  }

  /** `ExportCeilingLayer`: an empty floor element per floor, then the roof over the last floor; `Last()`
      throws InvalidOperationException on a building without floors. */
  function CeilingOf(floors: seq<FloorView>): Result<Layer>
  {
    if |floors| == 0 then Throws(InvalidOperationException)
    else Ok(Layer(CeilingLayer, seq(|floors|, n => []) + [Roofs(floors[|floors| - 1].grid)]))
  }

  /** The ceiling layer has one more floor element than the building has floors; all but the last are
      empty, and the roof pieces of the last one cover exactly the in-bounds available tiles of the top
      floor, no tile twice. */
  lemma CeilingShape(floors: seq<FloorView>)
    requires GridsValid(floors)
    ensures CeilingOf(floors).Throws? <==> |floors| == 0
    ensures CeilingOf(floors).Throws? ==> CeilingOf(floors).exception == InvalidOperationException
    ensures CeilingOf(floors).Ok? ==>
              var l := CeilingOf(floors).value;
              var top := floors[|floors| - 1].grid;
              var roof := l.floors[|floors|];
              l.kind == CeilingLayer && |l.floors| == |floors| + 1 &&
              (forall n :: 0 <= n < |floors| ==> l.floors[n] == []) &&
              (forall q :: q in roof ==> q.Roof?) &&
              (forall x, y :: (exists k :: 0 <= k < |roof| && roof[k].rect.InCell(x, y)) <==>
                 top.InBounds(x, y) && top.TileAt(x, y) != Unavailable) &&
              (forall i, j, x, y :: 0 <= i < j < |roof| && roof[i].rect.InCell(x, y) ==> !roof[j].rect.InCell(x, y))
  {
    if |floors| > 0 {
      var top := floors[|floors| - 1].grid;
      FindRectsProperties(top, Unavailable, true);
      var rs := top.FindRects(Unavailable, true);
      var roof := CeilingOf(floors).value.floors[|floors|];
      assert roof == Roofs(top);
      forall x, y
        ensures (exists k :: 0 <= k < |roof| && roof[k].rect.InCell(x, y)) <==> Covers(rs, x, y)
      {
        if exists k :: 0 <= k < |roof| && roof[k].rect.InCell(x, y) {
          var k :| 0 <= k < |roof| && roof[k].rect.InCell(x, y);
          assert rs[k].InCell(x, y);
        }
        if Covers(rs, x, y) {
          var k :| 0 <= k < |rs| && rs[k].InCell(x, y);
          assert roof[k].rect.InCell(x, y);
        }
      }
    }
  }

  method ExportCeilingLayer(floors: seq<FloorView>) returns (r: Result<Layer>)
    requires GridsValid(floors)
    ensures r == CeilingOf(floors)
  {
    var elements: seq<seq<Quad>> := [];
    for n := 0 to |floors|
      invariant elements == seq(n, k => [])
    {
      elements := elements + [[]];
    }
    if |floors| == 0 {
      return Throws(InvalidOperationException);
    }
    var validBounds := floors[|floors| - 1].grid.FindRects(Unavailable, true);
    var meshElement := [];
    for k := 0 to |validBounds|
      invariant meshElement == seq(k, i requires 0 <= i < k => Roof(validBounds[i]))
    {
      meshElement := meshElement + [Roof(validBounds[k])];
    }
    r := Ok(Layer(CeilingLayer, elements + [meshElement]));
  }

  // ---------------------------------------------------------------------------------------------
  // The mesh document

  /** `ExportBuildingMesh`: passages, rooms, ceiling, exterior wall and interior floor layers, in that
      order, or None (the method's `false`) when one of them throws. */
  function MeshOf(floors: seq<FloorView>, seed: int): Option<MeshDocument>
    requires GridsValid(floors)
  {
    var rooms := RoomsOf(floors);
    var ceiling := CeilingOf(floors);
    var exterior := ExteriorOf(floors, rooms.1);
    if ceiling.Throws? || exterior.Throws? then None
    else Some(MeshDocument(seed, "tmp", |floors|,
                           [PassagesOf(floors), rooms.0, ceiling.value, exterior.value, InteriorOf(floors)]))
  }

  /** The export fails exactly for a building without floors; otherwise the document carries the seed,
      the constraint set "tmp" and the floor count, and the five layers in order, each with one floor
      element per floor except the ceiling, which has one more. */
  lemma MeshOfShape(floors: seq<FloorView>, seed: int)
    requires GridsValid(floors)
    ensures MeshOf(floors, seed).None? <==> |floors| == 0
    ensures MeshOf(floors, seed).Some? ==>
              var d := MeshOf(floors, seed).value;
              d.seed == seed && d.constraintSet == "tmp" && d.floorCount == |floors| && |d.layers| == 5 &&
              d.layers[0].kind == PassagesLayer && d.layers[1].kind == RoomsLayer &&
              d.layers[2].kind == CeilingLayer && d.layers[3].kind == ExteriorWallLayer &&
              d.layers[4].kind == InteriorFloorLayer &&
              (forall k :: 0 <= k < 5 && k != 2 ==> |d.layers[k].floors| == |floors|) &&
              |d.layers[2].floors| == |floors| + 1
  {
    ExteriorOfRooms(floors);
    RoomsLayerWindows(floors);
    CeilingShape(floors);
  }

  /** The document `ExportBuildingMesh` builds from its five layers. */
  lemma MeshOfLayers(floors: seq<FloorView>, seed: int, passages: Layer, rooms: Layer, windows: map<int, seq<int>>,
                     ceiling: Result<Layer>, exterior: Result<Layer>, interior: Layer)
    requires GridsValid(floors)
    requires passages == PassagesOf(floors) && (rooms, windows) == RoomsOf(floors) && ceiling == CeilingOf(floors)
    requires exterior == ExteriorOf(floors, windows) && interior == InteriorOf(floors)
    ensures ceiling.Throws? || exterior.Throws? ==> MeshOf(floors, seed) == None
    ensures ceiling.Ok? && exterior.Ok? ==>
              MeshOf(floors, seed) == Some(MeshDocument(seed, "tmp", |floors|,
                                                        [passages, rooms, ceiling.value, exterior.value, interior]))
  {
  }

  /** `ExportBuildingMesh` on the floors and the seed of the building; None stands for the `catch` of the
      exception the ceiling layer throws on a building without floors. */
  method ExportMesh(floors: seq<FloorView>, seed: int) returns (r: Option<MeshDocument>)
    requires GridsValid(floors)
    ensures r == MeshOf(floors, seed)
  {
    ExteriorOfRooms(floors);
    var passages := ExportPassagesLayer(floors);
    var rooms, generatedWindows := ExportRoomsLayer(floors);
    var ceiling := ExportCeilingLayer(floors);
    if ceiling.Throws? {
      MeshOfLayers(floors, seed, passages, rooms, generatedWindows, ceiling, ExteriorOf(floors, generatedWindows),
                   InteriorOf(floors));
      return None;
    }
    var exterior := ExportExteriorWallLayer(floors, generatedWindows);
    var interior := ExportInteriorFloorLayer(floors);
    MeshOfLayers(floors, seed, passages, rooms, generatedWindows, ceiling, exterior, interior);
    r := Some(MeshDocument(seed, "tmp", |floors|, [passages, rooms, ceiling.value, exterior.value, interior]));
  }

  method ExportBuildingMesh(bld: Building) returns (r: Option<MeshDocument>)
    requires bld.Wellformed()
    ensures GridsValid(bld.Views()) && r == MeshOf(bld.Views(), bld.Seed)
  {
    var floors := bld.Views();
    assert GridsValid(floors);
    r := ExportMesh(floors, bld.Seed);
  }
}

/** The editor's mesh exporter (EditorV2/Editor/IO/BuildingXmlIo.cs, `ExportBuildingMesh` and its layer
    writers): a passages layer with a wall on every open side, a rooms layer with four walls and a floor
    per room, and an empty ceiling layer. */
module EditorMesh {
  import opened Wrappers
  import opened Directions
  import opened Points
  import opened Grids
  import opened Rooms
  import opened Floors
  import opened Buildings
  import opened MeshParts
  import GeneratorLayers

  // ---------------------------------------------------------------------------------------------
  // The passages layer

  /** The wall of side `d` of passage tile `t` at `p`: every open side is walled, entrance or not. */
  function EditorWall(g: GridView, p: Point, t: nat, d: Direction): seq<Quad>
  {
    if OpenSide(g, p, d) then [TileWall(t, d)] else []
  }

  /** The walls North, South, West and East of the `walls` array. */
  function EditorWalls(g: GridView, p: Point, t: nat): seq<Quad>
  {
    EditorWall(g, p, t, North) + EditorWall(g, p, t, South) + EditorWall(g, p, t, West) + EditorWall(g, p, t, East)
  }

  /** A side is walled exactly when its neighbour is off the grid or neither Passage nor Other. */
  lemma EditorWallsMeaning(g: GridView, p: Point, t: nat)
    ensures forall q :: q in EditorWalls(g, p, t) ==> q.TileWall? && q.tile == t
    ensures forall d :: TileWall(t, d) in EditorWalls(g, p, t) <==> IsCardinal(d) && OpenSide(g, p, d)
  {
    var n, s, w, e := EditorWall(g, p, t, North), EditorWall(g, p, t, South), EditorWall(g, p, t, West),
                      EditorWall(g, p, t, East);
    assert EditorWalls(g, p, t) == n + s + w + e;
    forall q | q in EditorWalls(g, p, t)
      ensures q.TileWall? && q.tile == t
    {
      assert q in n || q in s || q in w || q in e;
    }
  }

  /** What the editor writes for the Passage or Other tile `t`: a floor, the walls, the reversed floor. */
  function EditorPassageTile(g: GridView, t: nat): seq<Quad>
    requires g.Valid() && t < |g.tiles|
  {
    [TileFloor(t, false)] + EditorWalls(g, TilePosition(g, t), t) + [TileFloor(t, true)]
  }

  /** A passage tile writes two triangles for its floor, two per wall and two for its reversed floor;
      its walls are the generator's, plus the side a Passage entrance opens to when that side is open. */
  lemma EditorPassageTileShape(v: FloorView, t: nat)
    requires v.grid.Valid() && t < |v.grid.tiles|
    ensures var p := TilePosition(v.grid, t);
            var walls := EditorWalls(v.grid, p, t);
            Triangles(EditorPassageTile(v.grid, t)) == 2 + 2 * |walls| + 2 &&
            (forall d :: TileWall(t, d) in EditorPassageTile(v.grid, t) <==> IsCardinal(d) && OpenSide(v.grid, p, d)) &&
            (forall d :: TileWall(t, d) in EditorPassageTile(v.grid, t) <==>
               TileWall(t, d) in GeneratorLayers.PassageTile(v, t) ||
               (IsCardinal(d) && OpenSide(v.grid, p, d) && GeneratorLayers.FacesPassageEntrance(v, p, d)))
  {
    var p := TilePosition(v.grid, t);
    EditorWallsMeaning(v.grid, p, t);
    GeneratorLayers.PassageTileShape(v, t);
    assert EditorPassageTile(v.grid, t) == [TileFloor(t, false)] + EditorWalls(v.grid, p, t) + [TileFloor(t, true)];
  }

  /** The mesh of the first `n` tiles of a floor. */
  function EditorPassageTiles(g: GridView, n: nat): seq<Quad>
    requires g.Valid() && n <= |g.tiles|
  {
    if n == 0 then []
    else EditorPassageTiles(g, n - 1) + (if Walkable(g.tiles[n - 1]) then EditorPassageTile(g, n - 1) else [])
  }

  /** The passages layer of the editor: one floor element per floor. */
  function EditorPassagesOf(floors: seq<FloorView>): Layer
    requires GridsValid(floors)
  {
    Layer(PassagesLayer, seq(|floors|, n requires 0 <= n < |floors| =>
                                         EditorPassageTiles(floors[n].grid, |floors[n].grid.tiles|)))
  }

  method ExportPassagesFloor(grid: GridView) returns (meshElement: seq<Quad>)
    requires grid.Valid()
    ensures meshElement == EditorPassageTiles(grid, |grid.tiles|)
  {
    meshElement := [];
    for tileIndex := 0 to |grid.tiles|
      invariant meshElement == EditorPassageTiles(grid, tileIndex)
    {
      if Walkable(grid.tiles[tileIndex]) {
        meshElement := meshElement + EditorPassageTile(grid, tileIndex);
      }
    }
  }

  method ExportPassagesLayer(floors: seq<FloorView>) returns (layer: Layer)
    requires GridsValid(floors)
    ensures layer == EditorPassagesOf(floors)
  {
    var meshes := [];
    for n := 0 to |floors|
      invariant |meshes| == n
      invariant forall k :: 0 <= k < n ==> meshes[k] == EditorPassageTiles(floors[k].grid, |floors[k].grid.tiles|)
    {
      var meshElement := ExportPassagesFloor(floors[n].grid);
      meshes := meshes + [meshElement];
    }
    layer := Layer(PassagesLayer, meshes);
  }

  // ---------------------------------------------------------------------------------------------
  // The rooms layer

  /** What the editor writes for a room: its four walls North, South, West, East and its floor. */
  function EditorRoom(room: Room): seq<Quad>
  {
    [RoomWall(North), RoomWall(South), RoomWall(West), RoomWall(East), RoomFloor]
  }

  /** The mesh of a list of rooms, every room in order, children not looked at. */
  function EditorRooms(rooms: seq<Room>): seq<Quad>
  {
    if |rooms| == 0 then [] else EditorRooms(rooms[..|rooms| - 1]) + EditorRoom(rooms[|rooms| - 1])
  }

  /** The five pieces a mesh holds for its `k`-th room. */
  function RoomPieces(qs: seq<Quad>, k: nat): seq<Quad>
    requires 5 * k + 5 <= |qs|
  {
    qs[5 * k..5 * k + 5]
  }

  /** Every room of the floor writes exactly ten triangles, whatever its children: the pieces of the
      `k`-th room are its four walls North, South, West, East and its floor. */
  lemma {:induction false} EditorRoomsShape(rooms: seq<Room>)
    ensures Triangles(EditorRooms(rooms)) == 10 * |rooms|
    ensures forall k :: 0 <= k < |rooms| ==>
              RoomPieces(EditorRooms(rooms), k) == [RoomWall(North), RoomWall(South), RoomWall(West), RoomWall(East), RoomFloor]
  {
    if |rooms| > 0 {
      var init := rooms[..|rooms| - 1];
      EditorRoomsShape(init);
      var prev := EditorRooms(init);
      assert EditorRooms(rooms) == prev + EditorRoom(rooms[|rooms| - 1]);
      forall k | 0 <= k < |rooms|
        ensures RoomPieces(EditorRooms(rooms), k) == EditorRoom(rooms[k])
      {
        if k < |init| {
          assert RoomPieces(EditorRooms(rooms), k) == RoomPieces(prev, k);
          assert EditorRoom(rooms[k]) == EditorRoom(init[k]);
        }
      }
    }
  }

  /** The rooms layer of the editor: one floor element per floor. */
  function EditorRoomsOf(floors: seq<FloorView>): Layer
  {
    Layer(RoomsLayer, seq(|floors|, n requires 0 <= n < |floors| => EditorRooms(floors[n].rooms)))
  }

  method ExportRoomsFloor(floor: FloorView) returns (meshElement: seq<Quad>)
    ensures meshElement == EditorRooms(floor.rooms)
  {
    meshElement := [];
    for i := 0 to |floor.rooms|
      invariant meshElement == EditorRooms(floor.rooms[..i])
    {
      assert floor.rooms[..i + 1][..i] == floor.rooms[..i];
      meshElement := meshElement + EditorRoom(floor.rooms[i]);
    }
    assert floor.rooms[..|floor.rooms|] == floor.rooms;
  }

  method ExportRoomsLayer(floors: seq<FloorView>) returns (layer: Layer)
    ensures layer == EditorRoomsOf(floors)
  {
    var meshes := [];
    for n := 0 to |floors|
      invariant |meshes| == n && forall k :: 0 <= k < n ==> meshes[k] == EditorRooms(floors[k].rooms)
    {
      var meshElement := ExportRoomsFloor(floors[n]);
      meshes := meshes + [meshElement];
    }
    layer := Layer(RoomsLayer, meshes);
  }

  // ---------------------------------------------------------------------------------------------
  // The document

  /** The editor's `ExportBuildingMesh`: passages, rooms and a ceiling layer whose floors are commented
      out, so it has no floor elements. No layer writer throws, a building without floors included. */
  function EditorMeshOf(floors: seq<FloorView>, seed: int): (d: MeshDocument)
    requires GridsValid(floors)
    ensures d.seed == seed && d.constraintSet == "tmp" && d.floorCount == |floors| && |d.layers| == 3
    ensures d.layers[0].kind == PassagesLayer && |d.layers[0].floors| == |floors|
    ensures d.layers[1].kind == RoomsLayer && |d.layers[1].floors| == |floors|
    ensures d.layers[2] == Layer(CeilingLayer, [])
  {
    MeshDocument(seed, "tmp", |floors|, [EditorPassagesOf(floors), EditorRoomsOf(floors), Layer(CeilingLayer, [])])
  }

  /** `ExportBuildingMesh`: always a document, as nothing the editor's writers call throws. */
  method ExportBuildingMesh(bld: Building) returns (r: Option<MeshDocument>)
    requires bld.Wellformed()
    ensures GridsValid(bld.Views()) && r == Some(EditorMeshOf(bld.Views(), bld.Seed))
  {
    var floors := bld.Views();
    assert GridsValid(floors);
    var passages := ExportPassagesLayer(floors);
    var rooms := ExportRoomsLayer(floors);
    var ceiling := Layer(CeilingLayer, []);
    r := Some(MeshDocument(bld.Seed, "tmp", |floors|, [passages, rooms, ceiling]));
  }
}

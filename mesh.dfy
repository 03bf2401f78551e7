/** The pieces both mesh exporters write, with their float coordinates left out. Every piece the
    exporters emit is a pair of `<triangle>` elements: one `AppendRectangle` or `GenerateFloor` call, or
    one of the hand-written triangle pairs of the passage layer. A piece records what it covers (a tile,
    a side, a stretch of a wall, a height band) instead of where its vertices are. */
module MeshParts {
  import opened Wrappers
  import opened Directions
  import opened Points
  import opened Rectangles
  import opened Grids

  /** Where a stretch of `GenerateWall` ends: at a tile offset along the wall, or at the wall's far end. */
  datatype Stop = At(offset: int) | WallEnd

  /** The height a panel spans: floor to ceiling, below a window, above a window, or above a doorway. */
  datatype Band = Full | BelowWindow | AboveWindow | AboveDoorway

  datatype Quad =
    /** The flat floor of a passage tile; `back` marks the pair written last, with the reverse winding. */
    | TileFloor(tile: nat, back: bool)
    /** The sloped floor of a passage tile holding an entrance, rising towards the next storey. */
    | Ramp(tile: nat, facing: Direction)
    /** A wall on one side of a passage tile. */
    | TileWall(tile: nat, side: Direction)
    /** A stretch of a room wall of the generator's exporter, from a tile offset to a stop. */
    | WallPanel(facing: Direction, from: int, to: Stop, band: Band)
    /** A whole room wall of the editor's exporter. */
    | RoomWall(side: Direction)
    /** The floor of a room (`GenerateFloor`). */
    | RoomFloor
    /** One side of an exterior wall tile (`GenerateWallTile`). */
    | WallTile(tile: nat, facing: Direction, band: Band)
    /** One rectangle of the roof (`GenerateFloor` on a rectangle of the top floor). */
    | Roof(rect: Rectangle)
    /** The floor of an available tile in the interior floor layer. */
    | InteriorTile(tile: nat)

  /** The number of `<triangle>` elements the pieces stand for. */
  function Triangles(qs: seq<Quad>): nat
  {
    2 * |qs|
  }

  /** The layers of a mesh document. Their `name` attributes come from an enumeration that is not part
      of this model, so only the member each layer is written from is kept. */
  datatype LayerKind = PassagesLayer | RoomsLayer | CeilingLayer | ExteriorWallLayer | InteriorFloorLayer

  /** A `<layer>`: its kind and the mesh of each of its `<floor>` elements, in order. */
  datatype Layer = Layer(kind: LayerKind, floors: seq<seq<Quad>>)

  /** The root of a mesh document: the `seed`, `constraintset` and `floorcount` attributes and the layers. */
  datatype MeshDocument = MeshDocument(seed: int, constraintSet: string, floorCount: nat, layers: seq<Layer>)

  /** The sides in the order of the exporters' `for (cdir = 0; cdir < 4; cdir++)` loops. */
  function WallOrder(): seq<Direction>
  {
    [ToDirection(0), ToDirection(1), ToDirection(2), ToDirection(3)]
  }

  /** Every side is visited exactly once, and only the sides are. */
  lemma WallOrderSides()
    ensures |WallOrder()| == 4 && forall k :: 0 <= k < 4 ==> WallOrder()[k] == ToDirection(k)
    ensures WallOrder() == [North, South, West, East]
    ensures forall d :: d in WallOrder() <==> IsCardinal(d)
  {
  }

  /** The tiles a passage layer draws: Passage and Other. */
  predicate Walkable(t: FloorTileType)
  {
    t == FloorTileType.Passage || t == Other
  }

  /** The neighbour test of the passage layers: the side of `p` facing `d` needs a wall when the
      neighbouring position is off the grid or holds a tile that is neither Passage nor Other. */
  predicate OpenSide(g: GridView, p: Point, d: Direction)
  {
    var q := p.Advance(d, 1);
    var i := g.ToIndex(q.X, q.Y);
    i == -1 || !Walkable(g.tiles[i])
  }

  /** The neighbour test, spelled with the grid's own predicates. */
  lemma OpenSideMeaning(g: GridView, p: Point, d: Direction)
    ensures var q := p.Advance(d, 1);
            OpenSide(g, p, d) <==> !g.InBounds(q.X, q.Y) || !(g.CheckType(q.X, q.Y, FloorTileType.Passage) || g.CheckType(q.X, q.Y, Other))
  {
  }

  /** The position of a tile index: it is in bounds and `ToIndex` maps it back to the index. */
  function TilePosition(g: GridView, i: nat): (p: Point)
    requires g.Valid() && i < |g.tiles|
    ensures g.ToPosition(i) == Ok(p)
    ensures g.InBounds(p.X, p.Y) && g.ToIndex(p.X, p.Y) == i
  {
    PositionOfIndex(g, i);
    g.ToPosition(i).value
  }
}

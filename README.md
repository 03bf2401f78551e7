# buildgen floorplan core, modelled in Dafny

buildgen edits multi-storey floorplans and exports them. A building is a stack of floors. Each floor has:
- a tile grid (Unavailable, Vacant, Passage, Room, Other);
- a list of rooms;
- a list of entrances: Entrance, Terminal, Passage or Transition, each with a facing direction.

This project models the parts of the program that compute something, and proves properties of them:

- **Geometry.** Directions, points and integer rectangles:
  - intersection;
  - the four-band `Subtract`;
  - `Add` through LINQ `Union`.

  Also the editor's `Region`: a base rectangle with an ordered list of add and subtract operations, evaluated lazily with a cache.
- **The tile grid** (`FloorplanGrid`), a class over an array:
  - index and position conversion;
  - tile and area updates;
  - the area check;
  - the column-major run scan behind `FindRectangles`, which description files use to store subtracted bounds.
- **Floors and the building.** Entrance lookup, addition and removal on a floor. Adding and removing floors of a building.
- **The building descriptor editor.** Its handlers, as a class whose methods change the floors in place:
  - bounds editing;
  - the valid-direction search for a new entrance;
  - the recursive propagation that adds and removes entrances on the floors above and below;
  - adding a floor, and removing one, with the hand-over of its entrances.

  Each handler is proved equal to a function over the floors' states, and properties of the entrance pairing are proved about that function.
- **The building description writer and reader** (`ExportBuildingDescription`, `ParseBuilding`), with the round trip over the element tree: the tree the writer's text spells, the reader reads back.
- **The generator's mesh exporter and the editor's mesh exporter**, on their discrete parts: which tiles, walls, panels, window stretches and rooms each layer writes, and in which order. Among these are the list of valid window tiles and the wall with its window stretches.
- **The constraint set's zone-definition registry. The zone dialog and the constraint file editor's "new zone" insertion.** The zone dialog builds an element's text, and a reading of that text is proved to give back the form's values.
- **The viewer's vertex buffers**: the triangles every zone adds, the per-layer colours, and the counts of the building summary.

Floating-point geometry is left abstract. Integers are unbounded; the places where the source's 32-bit range matters are written as preconditions.

Two places where the code does not do what it evidently means are listed under "Findings". In each case the model contains the code as written with a counterexample, and the corrected version is the one the rest of the model uses.

## Model

| member | source | states |
|---|---|---|
| Directions.GetOpposite | EditorV2/Editor/Data/Direction.cs:17-32 | the opposite differs from its argument exactly for the four cardinal directions, and keeps the axis |
| Directions.IsHorizontal | EditorV2/Editor/Data/Direction.cs:34-42 | `IsHorizontal` and `IsVertical` never both hold, and one of them holds exactly for the four cardinal directions |
| Directions.Advance | EditorV2/Editor/Data/Direction.cs:44-71 | a cardinal direction steps to a different cardinal direction; Unspecified stays Unspecified |
| Directions.OppositeInvolution | EditorV2/Editor/Data/Direction.cs:17-32 | the opposite of the opposite is the direction itself |
| Directions.AdvanceInverse | EditorV2/Editor/Data/Direction.cs:44-71 | a reverse step undoes a forward step and the other way round |
| Directions.FourStepsReturn | EditorV2/Editor/Data/Direction.cs:44-71 | four steps in one sense come back to the start |
| Directions.FourStepsVisitAll | EditorV2/Editor/Data/Direction.cs:44-71 | the four steps from a cardinal direction reach every cardinal direction, so the direction search tries all four walls |
| Directions.ToDirection | EditorV2/Editor/Data/Direction.cs:73-88 | 0, 1, 2, 3 map to North, South, West, East, each only from its number; every other int gives Unspecified |
| Directions.ToDirectionIsNotOrdinal | EditorV2/Editor/Data/Direction.cs:5-13 | the int numbering of `ToDirection` is not the enum's ordinal order (West's ordinal maps to North) |
| Directions.Name | EditorV2/Editor/Data/Direction.cs:90-93 | every direction has a non-empty name |
| Directions.ParseName | EditorV2/Editor/IO/BuildingXmlIo.cs:379 | a name that parses is the name of the parsed direction |
| Directions.ParseNameOfName | EditorV2/Editor/IO/BuildingXmlIo.cs:379 | parsing the name of a direction gives that direction back |
| Entrances.TypeName | EditorV2/Editor/Data/Entrance.cs:4-10 | every entrance type has a non-empty name |
| Entrances.ParseTypeName | EditorV2/Editor/IO/BuildingXmlIo.cs:379 | a name that parses is the name of the parsed type |
| Entrances.ParseTypeNameOfName | EditorV2/Editor/IO/BuildingXmlIo.cs:379 | parsing the name of a type gives that type back |
| Entrances.NewEntrance | EditorV2/Editor/Data/Entrance.cs:18-23 | position, type and direction are stored as given |
| Entrances.Entrance.GetConnectionPoint | EditorV2/Editor/Data/Entrance.cs:25-28 | an orthogonal neighbour for a cardinal direction and the position itself for Unspecified; read back by `GetRelativeDirection`, the horizontal directions agree and the vertical ones come out flipped |
| Entrances.ConnectionPointStepsBack | EditorV2/Editor/Data/Entrance.cs:25-28 | one step from the connection point in the opposite direction returns to the entrance |
| Points.Point.Equals | EditorV2/Editor/Data/Point.cs:12-25 | equal exactly when both coordinates are equal |
| Points.Point.NotEquals | EditorV2/Editor/Data/Point.cs:27-30 | the negation of equality |
| Points.Point.Advance | EditorV2/Editor/Data/Point.cs:32-53 | North decreases Y, South increases Y, West decreases X, East increases X, by `amount`; Unspecified does not move |
| Points.Point.GetRelativeDirection | EditorV2/Editor/Data/Point.cs:55-67 | West or East exactly when `v` is left or right; on the same column South when `v` has a smaller Y and North when larger; Unspecified exactly for the same point |
| Points.AdvanceRoundTrip | EditorV2/Editor/Data/Point.cs:32-53 | advancing by `a` and then by `-a` returns to the start; advancing in the opposite direction is advancing by `-a` |
| Points.AdvanceTwice | EditorV2/Editor/Data/Point.cs:32-53 | two advances in one direction add up |
| Points.RelativeDirectionOfAdvance | EditorV2/Editor/Data/Point.cs:32-67 | after a positive step the relative direction is the step's for West and East and the opposite for North and South |
| Points.NorthStepReadsAsSouth | EditorV2/Editor/Data/Point.cs:55-67 | the point one step North reads as South |
| Rectangles.Rectangle.WithWidth | BuildGen/Common/Data/Rectangle.cs:19-23 | setting the width keeps the top-left corner and the bottom edge; the new width is the value set |
| Rectangles.Rectangle.WithHeight | BuildGen/Common/Data/Rectangle.cs:25-29 | setting the height keeps the top-left corner and the right edge; the new height is the value set |
| Rectangles.Rect | BuildGen/Common/Data/Rectangle.cs:31-35 | the four coordinates are stored as given |
| Rectangles.Rectangle.Intersect | BuildGen/Common/Data/Rectangle.cs:37-47 | the zero rectangle for rectangles strictly apart; otherwise a rectangle whose cells are exactly the cells of both |
| Rectangles.Rectangle.Clone | BuildGen/Common/Data/Rectangle.cs:102-105 | a rectangle with the same four coordinates |
| Rectangles.Rectangle.Bands | BuildGen/Common/Data/Rectangle.cs:72-75 | there are four candidate bands |
| Rectangles.FilterValid | BuildGen/Common/Data/Rectangle.cs:77-81 | no longer than its input; every element kept is Valid and comes from the input |
| Rectangles.FilterValidCovers | BuildGen/Common/Data/Rectangle.cs:77-81 | dropping the invalid rectangles drops no cell |
| Rectangles.FilterValidDisjoint | BuildGen/Common/Data/Rectangle.cs:77-81 | the filtered list of a pairwise disjoint list is pairwise disjoint |
| Rectangles.IntersectSymmetricIdempotent | BuildGen/Common/Data/Rectangle.cs:37-47 | for a well-ordered rectangle, intersection is symmetric, and a rectangle intersected with itself is itself |
| Rectangles.EdgeTouchingIntersection | BuildGen/Common/Data/Rectangle.cs:37-47 | two rectangles that only share an edge are not apart, yet their intersection is not Valid |
| Rectangles.ContainsReflexive | BuildGen/Common/Data/Rectangle.cs:90-100 | a well-ordered rectangle contains itself and both of its corner points, the far one included |
| Rectangles.BandsPartition | BuildGen/Common/Data/Rectangle.cs:72-75 | when the intersection is Valid, the four bands are pairwise disjoint and cover exactly the cells of `a` outside `b` |
| Rectangles.SubtractCells | BuildGen/Common/Data/Rectangle.cs:58-88 | null exactly when `rect` contains `a`; otherwise a non-empty list of pairwise disjoint pieces inside `a`, which is `[a]` when the intersection is not Valid, and whose cells are exactly the cells of `a` not in `rect` |
| Rectangles.DisjointValidNoDuplicates | BuildGen/Common/Data/Rectangle.cs:77-84 | a list of pairwise disjoint Valid rectangles has no repeat |
| Rectangles.AddThrows | BuildGen/Common/Data/Rectangle.cs:49-56 | `Add` throws (a null list passed to `Union`) exactly when `a` contains `rect` |
| Rectangles.AddPiecesFresh | BuildGen/Common/Data/Rectangle.cs:49-56 | the pieces of `rect.Subtract(a)` are distinct from each other and from `a` |
| Rectangles.AddCells | BuildGen/Common/Data/Rectangle.cs:49-56 | when `Add` succeeds it is `a` followed by the pieces of `rect.Subtract(a)`, with no repeats in the list and nothing dropped, and it covers exactly the cells of the two rectangles |
| Rectangles.UnionCovers | BuildGen/Common/Data/Rectangle.cs:53 | the cells of a `Union` are the cells of its two inputs |
| Rectangles.RemoveInvalid | BuildGen/Common/Data/Rectangle.cs:77-81 | the backward `RemoveAt` loop leaves exactly the Valid entries, in order |
| Rectangles.SubtractList | BuildGen/Common/Data/Rectangle.cs:58-88 | the step-by-step `Subtract` computes the value of the `Subtract` function |
| Seqs.Distinct | BuildGen/Common/Data/Rectangle.cs:53 | has no repeats, holds every element of the input, holds nothing else, and is no longer than the input |
| Seqs.Union | BuildGen/Common/Data/Rectangle.cs:53 | has no repeats, holds every element of both inputs, and holds nothing else |
| Seqs.UnionOfDisjoint | BuildGen/Common/Data/Rectangle.cs:53 | when neither input has a repeat and they share nothing, `Union` is plain concatenation |
| Regions.FindOp | EditorV2/Editor/Data/Region.cs:97-110 | the index of the first operation on `rect`, or -1 exactly when there is none |
| Regions.WithoutOpAt | EditorV2/Editor/Data/Region.cs:97-110 | after the removal, the entries before the removed index stay in place and the later ones move down by one |
| Regions.WithoutOpDistinct | EditorV2/Editor/Data/Region.cs:74-95 | removing the operation on `rect` leaves no operation on `rect`; appending one then keeps the operation rectangles distinct; the list shrinks by one exactly when there was one |
| Regions.EvalSubtractionCells | EditorV2/Editor/Data/Region.cs:178-191 | `EvaluateSubtraction` removes exactly the cells of the subtracted rectangle |
| Regions.EvalAdditionThrows | EditorV2/Editor/Data/Region.cs:163-176 | `EvaluateAddition` throws exactly when some piece contains the added rectangle |
| Regions.EvalAdditionCells | EditorV2/Editor/Data/Region.cs:163-176 | a successful addition covers the old cells plus those of the added rectangle; adding to no pieces gives none |
| Regions.ContainsSnoc | EditorV2/Editor/Data/Region.cs:167-173 | some piece contains `r` exactly when a piece of the prefix does or the last piece does |
| Regions.CoversSnoc | EditorV2/Editor/Data/Region.cs:167-173 | the cells of a list are those of its prefix and of its last element |
| Regions.EmptyStaysEmpty | EditorV2/Editor/Data/Region.cs:127-128 | the early `break` once no piece is left gives the same result as running every operation |
| Regions.ThrowsStaysThrown | EditorV2/Editor/Data/Region.cs:120-129 | once an operation throws, the whole evaluation throws with that exception |
| Regions.ThrowsStaysThrownAdd | EditorV2/Editor/Data/Region.cs:167-173 | once one piece's `Add` throws, the whole `EvaluateAddition` throws with that exception |
| Regions.SubtractionsOnly | EditorV2/Editor/Data/Region.cs:112-135 | a region of subtractions never throws, and covers exactly the cells of the bounds that no subtracted rectangle covers |
| Regions.PiecesInsideBounds | EditorV2/Editor/Data/Region.cs:112-135 | the pieces of a region of subtractions lie inside its bounds |
| Regions.SubtractionInside | EditorV2/Editor/Data/Region.cs:178-191 | subtraction keeps pieces inside any rectangle that held them, and leaves nothing when the subtracted rectangle holds that rectangle |
| Regions.UnionInside | EditorV2/Editor/Data/Region.cs:187 | the `Union` of two lists of pieces inside a rectangle lies inside it |
| Regions.SubtractBoundsEmpty | EditorV2/Editor/Data/Region.cs:112-135 | subtracting the bounds themselves from a region of subtractions leaves no piece |
| Regions.PiecesOfSubtractionsValid | EditorV2/Editor/Data/Region.cs:112-135 | a region of subtractions never throws, and its pieces are Valid when its bounds are |
| Regions.SubtractionValid | EditorV2/Editor/Data/Region.cs:178-191 | subtracting from Valid pieces gives Valid pieces |
| Regions.OpRects | EditorV2/Editor/Data/Region.cs:150-161 | every rectangle listed belongs to an operation of that kind, and every operation of that kind is listed |
| Regions.TotalAreaNonNegative | EditorV2/Editor/Data/Region.cs:26-40 | Valid pieces have a summed area of at least their number |
| Regions.FreshRegionEvaluate | EditorV2/Editor/Data/Region.cs:117-118 | a region without operations evaluates to its bounds alone |
| Regions.Region.constructor | EditorV2/Editor/Data/Region.cs:42-47 | a region with the given bounds, no operations, and invalidated |
| Regions.Region.FromCoordinates | EditorV2/Editor/Data/Region.cs:49-54 | the same, with the bounds built from four coordinates |
| Regions.Region.Reset | EditorV2/Editor/Data/Region.cs:20-24 | new bounds, no operations, invalidated; the stale cache stays |
| Regions.Region.Clear | EditorV2/Editor/Data/Region.cs:63-67 | no operations and invalidated; the bounds and the cache stay |
| Regions.Region.Add | EditorV2/Editor/Data/Region.cs:69-83 | nothing changes when the bounds contain `rect` and there are no operations yet; otherwise any operation on `rect` is replaced by an Add at the end and the region is invalidated |
| Regions.Region.Subtract | EditorV2/Editor/Data/Region.cs:85-95 | any operation on `rect` is replaced by a Subtract at the end, and the region is invalidated |
| Regions.Region.RemoveOp | EditorV2/Editor/Data/Region.cs:97-110 | the first operation with the same four coordinates is removed; everything else stays, the invalidated flag included |
| Regions.Region.Evaluate | EditorV2/Editor/Data/Region.cs:112-135 | when valid, the cached list and no change; when invalidated, the fold of the operations over `[bounds]`, cached and made valid, or the exception of a throwing `Add` with the region left as it was |
| Regions.Region.EvaluateAddition | EditorV2/Editor/Data/Region.cs:163-176 | the loop computes `EvalAddition`, stopping at the first throw |
| Regions.Region.EvaluateSubtraction | EditorV2/Editor/Data/Region.cs:178-191 | the loop computes `EvalSubtraction` |
| Regions.Region.Area | EditorV2/Editor/Data/Region.cs:26-40 | the summed area of the pieces `Evaluate` returns, or its exception |
| Regions.Region.Clone | EditorV2/Editor/Data/Region.cs:137-148 | a fresh region with the same bounds and operations, invalidated, and with no cache |
| Regions.Region.GetOperationRects | EditorV2/Editor/Data/Region.cs:150-161 | the loop computes `OpRects` for that kind |
| Grids.DivModOf | BuildGen/Common/Data/FloorplanGrid.cs:185-195 | the index `x + y * stride` with `0 <= x < stride` gives back `y` as its quotient and `x` as its remainder |
| Grids.IndexBelow | BuildGen/Common/Data/FloorplanGrid.cs:179-186 | an in-bounds position has an index inside the tile array |
| Grids.GridView.ToIndex | BuildGen/Common/Data/FloorplanGrid.cs:179-186 | -1 exactly for out-of-bounds positions; otherwise an array index whose remainder is the column and whose quotient is the row |
| Grids.GridView.ToPosition | BuildGen/Common/Data/FloorplanGrid.cs:188-198 | throws exactly for an index outside the array (or a zero stride); otherwise the column is the index's remainder and the row its quotient |
| Grids.GridView.SetTile | BuildGen/Common/Data/FloorplanGrid.cs:71-77 | the stride and the tile count stay |
| Grids.GridView.SetArea | BuildGen/Common/Data/FloorplanGrid.cs:60-69 | the stride and the tile count stay |
| Grids.Blank | BuildGen/Common/Data/FloorplanGrid.cs:52-58 | `count` tiles, every one Vacant |
| Grids.PositionOfIndex | BuildGen/Common/Data/FloorplanGrid.cs:179-198 | every array index is the index of an in-bounds position: its remainder and quotient |
| Grids.ToPositionInverse | BuildGen/Common/Data/FloorplanGrid.cs:179-198 | `ToPosition` inverts `ToIndex` on in-bounds positions, and `ToIndex` inverts `ToPosition` on array indices |
| Grids.CheckSemantics | BuildGen/Common/Data/FloorplanGrid.cs:79-93 | `CheckType` holds exactly for an in-bounds tile of that type; `CheckUnavailable` holds out of bounds and for Unavailable tiles |
| Grids.AreaStateBounds | BuildGen/Common/Data/FloorplanGrid.cs:95-107 | an empty range passes the area check; a non-empty range that passes lies in bounds, both corners included |
| Grids.SetTileEffect | BuildGen/Common/Data/FloorplanGrid.cs:71-77 | the single-tile `Set` changes exactly the tile at (x, y), and nothing when (x, y) is out of bounds |
| Grids.SetAreaEffect | BuildGen/Common/Data/FloorplanGrid.cs:60-69 | the range `Set` changes exactly the in-bounds tiles of the range; an empty range changes nothing |
| Grids.PaintTile | BuildGen/Common/Data/FloorplanGrid.cs:64-67 | one more `Set` in the inner loop extends the painted part of the current column by one row |
| Grids.PaintColumn | BuildGen/Common/Data/FloorplanGrid.cs:62-68 | a finished inner loop has painted the whole current column of the range |
| Grids.PaintDone | BuildGen/Common/Data/FloorplanGrid.cs:62-68 | a finished outer loop has painted exactly the range |
| Grids.RunsOrdered | BuildGen/Common/Data/FloorplanGrid.cs:117-138 | the scan of one column yields rectangles of that column, below the run's start, in downward order with a gap between them |
| Grids.RunsMaximal | BuildGen/Common/Data/FloorplanGrid.cs:117-138 | every rectangle the scan of one column yields is a maximal run of selected tiles, one column wide |
| Grids.RunsCover | BuildGen/Common/Data/FloorplanGrid.cs:117-138 | the scan of one column covers exactly the open run and the selected tiles of that column from the current row down |
| Grids.ColsShape | BuildGen/Common/Data/FloorplanGrid.cs:115-139 | the scan of the columns from `x` on yields maximal runs of those columns in column-major order |
| Grids.ShapeConcat | BuildGen/Common/Data/FloorplanGrid.cs:115-139 | the runs of one column, followed by those of the later columns, stay in column-major order |
| Grids.ColsCover | BuildGen/Common/Data/FloorplanGrid.cs:115-139 | the scan of the columns from `x` on covers exactly the selected in-bounds tiles of those columns |
| Grids.ColumnMajorDisjoint | BuildGen/Common/Data/FloorplanGrid.cs:123-136 | one-column rectangles in column-major order share no cell |
| Grids.FindRectsProperties | BuildGen/Common/Data/FloorplanGrid.cs:109-177 | `FindRectangles` and `FindRectanglesExclusive` give maximal one-column runs in column-major order, pairwise disjoint, covering exactly the in-bounds tiles of the type (or, for the exclusive scan, of any other type) |
| Grids.FindRectsPartition | BuildGen/Common/Data/FloorplanGrid.cs:109-177 | for one type, each in-bounds tile is covered by exactly one of the two scans, and no out-of-bounds tile by either |
| Grids.SetAll | BuildGen/Common/Data/FloorplanGrid.cs:60-69 | setting a list of ranges keeps the stride and the tile count |
| Grids.SetAllSnoc | BuildGen/Common/Data/FloorplanGrid.cs:60-69 | setting one more range after a list is setting the longer list |
| Grids.SetAllTiles | BuildGen/Common/Data/FloorplanGrid.cs:60-69 | after setting a list of ranges, a tile has the new type exactly when some range covers it |
| Grids.FindRectsRoundTrip | BuildGen/Common/Data/FloorplanGrid.cs:109-142 | setting the rectangles `FindRectangles(t)` found, on a same-sized grid without `t` tiles, puts `t` exactly where the first grid had it and keeps the rest |
| Grids.ConstructorError | BuildGen/Common/Data/FloorplanGrid.cs:33-42 | the constructor does not throw exactly when the stride is positive, the count is not negative and the count is a multiple of the stride |
| Grids.FloorplanGrid.constructor | BuildGen/Common/Data/FloorplanGrid.cs:33-42 | a fresh array of `tileCount` Vacant tiles with the given stride |
| Grids.FloorplanGrid.Create | BuildGen/Common/Data/FloorplanGrid.cs:33-42 | throws exactly in the cases of `ConstructorError`, with its exception; otherwise a fresh blank grid |
| Grids.FloorplanGrid.Clone | BuildGen/Common/Data/FloorplanGrid.cs:44-50 | a fresh grid with the same tiles and stride |
| Grids.FloorplanGrid.Overwrite | BuildGen/Common/Data/FloorplanGrid.cs:47 | the array holds the given tiles afterwards |
| Grids.FloorplanGrid.Reset | BuildGen/Common/Data/FloorplanGrid.cs:52-58 | every tile is Vacant afterwards |
| Grids.FloorplanGrid.SetTile | BuildGen/Common/Data/FloorplanGrid.cs:71-77 | the array afterwards is the single-tile `Set` of the one before |
| Grids.FloorplanGrid.SetArea | BuildGen/Common/Data/FloorplanGrid.cs:60-69 | the nested loops leave the range `Set` of the array before |
| Grids.FloorplanGrid.CheckAreaState | BuildGen/Common/Data/FloorplanGrid.cs:95-107 | true exactly when every position of the range holds an in-bounds tile of that type |
| Grids.FloorplanGrid.ScanColumn | BuildGen/Common/Data/FloorplanGrid.cs:117-138 | the inner loop and the close at the bottom row compute the runs of one column |
| Grids.FloorplanGrid.FindRuns | BuildGen/Common/Data/FloorplanGrid.cs:109-177 | the column loop computes the runs of every column, in order |
| Grids.FloorplanGrid.FindRectangles | BuildGen/Common/Data/FloorplanGrid.cs:109-142 | the runs of the tiles of the type |
| Grids.FloorplanGrid.FindRectanglesExclusive | BuildGen/Common/Data/FloorplanGrid.cs:144-177 | the runs of the tiles of any other type |
| Rooms.NewRoom | BuildGen/Common/Data/Room.cs:19-27 | every point at the origin, no children, and the Undefined zone type |
| Rooms.DefaultZoneDefinition | BuildGen/Common/Constraints/ZoneDefinition.cs:11-23 | no id and no split set, the Public type, every size bound 1.0, both amounts 1, and no excluded floor |
| Floors.EntranceIndex | BuildGen/Common/Data/Floor.cs:39-49 | the index of the first entrance on (x, y), or -1 exactly when there is none |
| Floors.FloorView.EntranceAt | BuildGen/Common/Data/Floor.cs:51-62 | null exactly when no entrance stands on (x, y); otherwise an entrance of the floor on (x, y) |
| Floors.FloorView.WithEntrance | BuildGen/Common/Data/Floor.cs:31-37 | the new entrance is appended, even when another already stands there; the rooms stay; the grid keeps its invariant |
| Floors.FloorView.WithoutEntranceAt | BuildGen/Common/Data/Floor.cs:39-49 | removing an entrance leaves the grid and the rooms as they were, the tile included |
| Floors.FloorView.WithRoom | BuildGen/Common/Data/Floor.cs:20-29 | a room with the given corners is appended after the old rooms; grid and entrances stay |
| Floors.EmptyFloor | BuildGen/Common/Data/Floor.cs:13-18 | a new floor has no rooms and no entrances, so it is not Valid |
| Floors.EntranceIndexAppend | BuildGen/Common/Data/Floor.cs:39-62 | after appending, the lookup finds an older entrance when there is one, and otherwise the new one when it stands there |
| Floors.AddEntranceLookup | BuildGen/Common/Data/Floor.cs:31-70 | after `AddEntrance` the floor is Valid; on (x, y) the lookup finds the old entrance when there was one and otherwise the new one; every other position finds what it found before |
| Floors.AddEntranceTile | BuildGen/Common/Data/Floor.cs:34 | the tile of a new entrance becomes Other when it is in bounds |
| Floors.RemoveEntranceCount | BuildGen/Common/Data/Floor.cs:39-62 | `RemoveEntranceAt` changes nothing when the lookup finds nothing; otherwise it removes exactly the entrance the lookup finds: one fewer, the rest kept |
| Floors.AddRemoveRoundTrip | BuildGen/Common/Data/Floor.cs:31-49 | on a free position, adding an entrance and then removing the one there gives the old entrance list back |
| Floors.Floor.constructor | BuildGen/Common/Data/Floor.cs:13-18 | a fresh floor whose value is the empty floor |
| Floors.Floor.Create | BuildGen/Common/Data/Floor.cs:13-18 | throws exactly when the grid constructor does; otherwise a fresh empty floor |
| Floors.Floor.AddRoom | BuildGen/Common/Data/Floor.cs:20-29 | the floor becomes `WithRoom` of the old one, and the returned room is the one appended |
| Floors.Floor.AddEntrance | BuildGen/Common/Data/Floor.cs:31-37 | the floor becomes `WithEntrance` of the old one |
| Floors.Floor.RemoveEntranceAt | BuildGen/Common/Data/Floor.cs:39-49 | the loop leaves the floor `WithoutEntranceAt` the old one |
| Floors.Floor.GetEntranceAt | BuildGen/Common/Data/Floor.cs:51-62 | the loop finds what `EntranceAt` states |
| Buildings.EmptyFloors | BuildGen/Common/IO/BuildingXmlIo.cs:259-262 | `n` floors made by `AddFloor`, each empty with `rows * columns` Vacant tiles and `columns` per row, each grid keeping its invariant when `columns` is positive |
| Buildings.ProductDivisible | BuildGen/Common/Data/Building.cs:27-30 | the tile count `AddFloor` passes is a multiple of the stride it passes, so the grid constructor's divisibility check passes |
| Buildings.Building.constructor | BuildGen/Common/Data/Building.cs:15-23 | the given sizes, no floors, seed 0, and no constraint set |
| Buildings.Building.AddFloor | BuildGen/Common/Data/Building.cs:25-34 | throws (the grid's `%` by zero) exactly when there are no columns, and then changes nothing; otherwise a fresh empty floor is appended, after which the building is not Valid; every other field stays |
| Buildings.Building.AddFloors | BuildGen/Common/IO/BuildingXmlIo.cs:258-262 | the loop throws exactly when it runs at least once without columns; otherwise the building holds `count` fresh empty floors (none for a count that is not positive) |
| Buildings.Building.Append | BuildGen/Editor/BuildingDescriptorEditor.xaml.cs:366 | the floor is appended, and every floor keeps its state |
| Buildings.Building.RemoveFloorAt | BuildGen/Editor/BuildingDescriptorEditor.xaml.cs:411 | floor `k` is removed, and the others keep order and state |
| Buildings.Building.Valid | BuildGen/Common/Data/Building.cs:36-48 | true exactly when every floor has an entrance, so a building without floors is Valid |
| EntranceEditing.AdvanceNShift | BuildGen/Editor/BuildingDescriptorEditor.xaml.cs:186-188 | one turn followed by `k` turns is `k + 1` turns |
| EntranceEditing.SearchFails | BuildGen/Editor/BuildingDescriptorEditor.xaml.cs:186-205 | the search loop fails exactly when every one of the candidates it tries is blocked |
| EntranceEditing.SearchNoneBlocked | BuildGen/Editor/BuildingDescriptorEditor.xaml.cs:186-205 | a failed search means every candidate tried was blocked |
| EntranceEditing.SearchFirstOpen | BuildGen/Editor/BuildingDescriptorEditor.xaml.cs:186-205 | a successful search returns the first open candidate, with every earlier one blocked |
| EntranceEditing.NextDirectionSpec | BuildGen/Editor/BuildingDescriptorEditor.xaml.cs:177-206 | `GetNextValidEntranceDirection` fails exactly when (x, y) is outside the floorplan or all four candidates after `base` are blocked; otherwise it gives the first open one, with `base` itself tried last |
| EntranceEditing.NextDirectionShape | BuildGen/Editor/BuildingDescriptorEditor.xaml.cs:177-206 | a found direction is open; it is cardinal exactly when `base` is; an Unspecified base gives Unspecified on any tile inside the floorplan |
| EntranceEditing.AdvanceNCardinal | EditorV2/Editor/Data/Direction.cs:44-71 | any number of turns keeps a direction cardinal or not, and leaves Unspecified where it is |
| EntranceEditing.Rotated | BuildGen/Editor/BuildingDescriptorEditor.xaml.cs:231 | changing the direction through the entrance `GetEntranceAt` returned turns the first entrance on (x, y) and keeps every position, type and count; it changes nothing when there is no entrance there |
| EntranceEditing.AddEntranceSpec | BuildGen/Editor/BuildingDescriptorEditor.xaml.cs:208-255 | `AddEntrance` returns true exactly when the direction search on its floor succeeds, and changes nothing when it fails; on success its own floor gets the turned or the new entrance; it never touches floors on the side it was called from; it changes no floor's grid size or rooms |
| EntranceEditing.Propagation | BuildGen/Editor/BuildingDescriptorEditor.xaml.cs:219-250 | the recursive calls leave the calling floor alone and never touch floors on the side of `src`; they change no floor's grid size or rooms |
| EntranceEditing.NewEntrancePairsUp | BuildGen/Editor/BuildingDescriptorEditor.xaml.cs:240-241 | a new Entrance creates a Terminal on the free floor above, facing that floor's first open direction |
| EntranceEditing.NewTerminalPairsDown | BuildGen/Editor/BuildingDescriptorEditor.xaml.cs:242-243 | a new Terminal creates an Entrance on the free floor below |
| EntranceEditing.NewTransitionPairsBoth | BuildGen/Editor/BuildingDescriptorEditor.xaml.cs:244-250 | a new Transition creates a Terminal above and an Entrance below |
| EntranceEditing.PassageStaysLocal | BuildGen/Editor/BuildingDescriptorEditor.xaml.cs:208-255 | a Passage, new or existing, changes no floor but its own |
| EntranceEditing.ExistingEntranceTurns | BuildGen/Editor/BuildingDescriptorEditor.xaml.cs:213-233 | clicking an existing entrance only turns it: the floor keeps its tiles, its entrance count and every position and type, and the entrance on (x, y) faces the new direction |
| EntranceEditing.ExistingForwardsKind | BuildGen/Editor/BuildingDescriptorEditor.xaml.cs:219-220 | an existing Entrance passes the requested kind, not Terminal, to the floor above, so a free floor above gets an entrance of the requested kind |
| EntranceEditing.TotalUpdate | BuildGen/Editor/BuildingDescriptorEditor.xaml.cs:263-283 | replacing one floor changes the entrance total by the difference of that floor's counts |
| EntranceEditing.ThinnedTrans | BuildGen/Editor/BuildingDescriptorEditor.xaml.cs:263-283 | keeping tiles and rooms while losing entrances composes over two steps |
| EntranceEditing.RemoveHere | BuildGen/Editor/BuildingDescriptorEditor.xaml.cs:269 | one removal takes exactly one entrance away and changes no tile or room |
| EntranceEditing.RemoveSpec | BuildGen/Editor/BuildingDescriptorEditor.xaml.cs:263-283 | `RemoveEntrance` changes nothing when (x, y) has no entrance on floor f, and otherwise removes at least one entrance; it never adds an entrance and never changes a tile or a room, so the back-and-forth recursion ends |
| EntranceEditing.RemoveEntrancePair | BuildGen/Editor/BuildingDescriptorEditor.xaml.cs:263-283 | removing the only Entrance on (x, y) of its floor, with a Terminal above, removes exactly those two: the Terminal's walk back down finds nothing more |
| EntranceEditing.BoundsOp | BuildGen/Editor/BuildingDescriptorEditor.xaml.cs:98-129 | a bounds edit keeps the entrances, the rooms and the grid invariant |
| EntranceEditing.BoundsOpEffect | BuildGen/Editor/BuildingDescriptorEditor.xaml.cs:98-129 | when the edit is applied, an in-bounds tile of the inclusive rectangle becomes Vacant (add) or Unavailable (subtract) and every other tile keeps its state; a subtraction with an entrance inside changes nothing; a subtraction never changes the tile under an entrance |
| EntranceEditing.TerminalCopies | BuildGen/Editor/BuildingDescriptorEditor.xaml.cs:371-378 | no more copies than entrances, and every copy is a Terminal |
| EntranceEditing.CopyTerminals | BuildGen/Editor/BuildingDescriptorEditor.xaml.cs:371-378 | the loop appends exactly the Terminal copies to the new floor, in order, and keeps its rooms and grid size |
| EntranceEditing.TerminalCopiesMatch | BuildGen/Editor/BuildingDescriptorEditor.xaml.cs:371-378 | every entrance of the new top floor is a Terminal copy of an Entrance or Transition below, facing the same way, and each such entrance below has its copy |
| EntranceEditing.HandOver | BuildGen/Editor/BuildingDescriptorEditor.xaml.cs:397-408 | the hand-over to the floor above keeps its rooms and grid size |
| EntranceEditing.RemoveFloorSpec | BuildGen/Editor/BuildingDescriptorEditor.xaml.cs:384-415 | with one floor nothing happens; otherwise one floor fewer; the new active index is always a valid floor index |
| EntranceEditing.HandedOver | BuildGen/Editor/BuildingDescriptorEditor.xaml.cs:392-409 | the number of floors stays |
| EntranceEditing.RemoveFloorSpecKeeps | BuildGen/Editor/BuildingDescriptorEditor.xaml.cs:384-415 | the floors below the active one stay as they were, those above move down by one, and the one that received the hand-over takes the active floor's place |
| EntranceEditing.RemoveFloorSpecOf | BuildGen/Editor/BuildingDescriptorEditor.xaml.cs:392-412 | with more than one floor, the hand-over, `RemoveAt` and the new index together give `RemoveFloorSpec` |
| EntranceEditing.RemoveFloorSpecOne | BuildGen/Editor/BuildingDescriptorEditor.xaml.cs:386-389 | with one floor, `RemoveFloor` changes nothing |
| BuildingEditor.EntranceOp | BuildGen/Editor/BuildingDescriptorEditor.xaml.cs:131-175 | a click changes no floor's grid size or rooms, and whenever a message box is shown no floor changes |
| BuildingEditor.EntranceOpCases | BuildGen/Editor/BuildingDescriptorEditor.xaml.cs:138-167 | past the Unavailable test, removal calls `RemoveEntrance`; a mode that does not add does nothing; an adding mode either shows its missing-floor message without change or makes one top-level `AddEntrance` of its type |
| BuildingEditor.OutsideGridRefused | BuildGen/Editor/BuildingDescriptorEditor.xaml.cs:136-183 | a click outside the grid passes the Unavailable test, yet every adding mode refuses it with a message and no change |
| BuildingEditor.AddTerminalCopies | BuildGen/Editor/BuildingDescriptorEditor.xaml.cs:371-378 | the loop leaves the new floor with the Terminal copies of the given entrances appended |
| BuildingEditor.FillNewFloor | BuildGen/Editor/BuildingDescriptorEditor.xaml.cs:368-379 | the new floor gets a fresh copy of the former top floor's grid and becomes `NewTopFloor` of it |
| BuildingEditor.ReceiveHandOver | BuildGen/Editor/BuildingDescriptorEditor.xaml.cs:397-408 | the loop leaves the floor above as `HandOver` says |
| BuildingEditor.BuildingDescriptorEditor.constructor | BuildGen/Editor/BuildingDescriptorEditor.xaml.cs:82-96 | editing a building with floors: the bottom floor is active, there is no draw mode, and `ContentsModified` has not been raised |
| BuildingEditor.BuildingDescriptorEditor.GetNextValidEntranceDirection | BuildGen/Editor/BuildingDescriptorEditor.xaml.cs:177-206 | the `bool` result and the final value of the `ref` direction are those of `NextDirection`; the direction stays as it was on failure |
| BuildingEditor.BuildingDescriptorEditor.HandleBoundsOp | BuildGen/Editor/BuildingDescriptorEditor.xaml.cs:98-129 | the active floor becomes `BoundsOp` of itself, with an add for BoundsAdd; every other floor stays; the "cannot subtract" message exactly when a subtraction is refused for an entrance inside the rectangle; `ContentsModified` raised once |
| BuildingEditor.BuildingDescriptorEditor.Store | BuildGen/Editor/BuildingDescriptorEditor.xaml.cs:208-283 | floor `k` takes the given state and every other floor stays |
| BuildingEditor.BuildingDescriptorEditor.Commit | BuildGen/Editor/BuildingDescriptorEditor.xaml.cs:208-283 | every floor takes the state the target gives it |
| BuildingEditor.BuildingDescriptorEditor.AddEntrance | BuildGen/Editor/BuildingDescriptorEditor.xaml.cs:208-255 | the result and the new floors are those of `AddEntranceSpec` |
| BuildingEditor.BuildingDescriptorEditor.RemoveEntrance | BuildGen/Editor/BuildingDescriptorEditor.xaml.cs:263-283 | the new floors are those of `RemoveSpec` |
| BuildingEditor.BuildingDescriptorEditor.AddReported | BuildGen/Editor/BuildingDescriptorEditor.xaml.cs:148-165 | a top-level `AddEntrance` on the active floor, with the "no exit path" message exactly when it returned false |
| BuildingEditor.BuildingDescriptorEditor.HandleEntranceOp | BuildGen/Editor/BuildingDescriptorEditor.xaml.cs:131-175 | the new floors and the message box shown are those of `EntranceOp` |
| BuildingEditor.BuildingDescriptorEditor.AddNewFloor | BuildGen/Editor/BuildingDescriptorEditor.xaml.cs:362-382 | with no columns the exception of `AddFloor` leaves the building as it was; otherwise `NewTopFloor` of the former top floor is appended and every other floor stays |
| BuildingEditor.BuildingDescriptorEditor.RemoveFloor | BuildGen/Editor/BuildingDescriptorEditor.xaml.cs:384-415 | the message exactly for the only floor; the new floors and the new active index are those of `RemoveFloorSpec` |
| BuildingEditor.BuildingDescriptorEditor.RemoveFromSeveral | BuildGen/Editor/BuildingDescriptorEditor.xaml.cs:390-414 | with two floors or more, the hand-over and the removal give `RemoveFloorSpec` |
| BuildingEditor.BuildingDescriptorEditor.HandOverActive | BuildGen/Editor/BuildingDescriptorEditor.xaml.cs:392-409 | the floors become `HandedOver` of the old ones, and their number stays |
| BuildingEditor.BuildingDescriptorEditor.RemoveActiveFloor | BuildGen/Editor/BuildingDescriptorEditor.xaml.cs:411-412 | the active floor is removed and the rest keep their order; the index moves down exactly when it ran past the top |
| XmlTrees.IndexOf | EditorV2/Editor/IO/BuildingXmlIo.cs:232-235 | -1 exactly when no attribute carries the name, otherwise the position of the first attribute that does |
| XmlTrees.Lookup | EditorV2/Editor/IO/BuildingXmlIo.cs:232-239 | `XElement.Attribute(name)`: None (null) exactly when no attribute carries the name |
| XmlTrees.LookupAppend | EditorV2/Editor/IO/BuildingXmlIo.cs:232-235 | a lookup in a concatenated attribute list finds the first list's attribute, and the second list's only when the first has none |
| XmlTrees.LookupCons | EditorV2/Editor/IO/BuildingXmlIo.cs:232-235 | the first attribute wins when it has the name; otherwise the lookup continues with the rest |
| XmlTrees.LookupFour | EditorV2/Editor/IO/BuildingXmlIo.cs:343-346 | the lookup among the four attributes of a `<rect>` or `<entrance>`, case by case |
| XmlTrees.RenderAllAppend | EditorV2/Editor/IO/BuildingXmlIo.cs:79-109 | the text of a list of elements is the text of its first part followed by the text of the rest |
| XmlTrees.RenderAllSnoc | EditorV2/Editor/IO/BuildingXmlIo.cs:91-96 | one more element written appends exactly its own text |
| XmlTrees.AttributesSnoc | EditorV2/Editor/IO/BuildingXmlIo.cs:68-76 | one more attribute written appends exactly its ` name="value"` text |
| XmlTrees.AttributesFour | EditorV2/Editor/IO/BuildingXmlIo.cs:93-95 | four attributes are written one after another, in order |
| Decimals.DigitChar | EditorV2/Editor/IO/BuildingXmlIo.cs:93-95 | the character of a digit is a decimal digit whose code is `'0'` plus the digit |
| Decimals.DigitsOf | EditorV2/Editor/IO/BuildingXmlIo.cs:93-95 | the digits of a number: never empty, only digits, and with a leading `0` exactly for 0 |
| Decimals.DigitsRoundTrip | EditorV2/Editor/IO/BuildingXmlIo.cs:93-95 | the value of the digits written for `n` is `n` |
| Decimals.DecimalString | EditorV2/Editor/IO/BuildingXmlIo.cs:70 | `int.ToString()`: never empty, and starting with `-` exactly for negative numbers |
| Decimals.ParseInt | EditorV2/Editor/IO/BuildingXmlIo.cs:351-354 | `int.Parse`: a result is always a 32-bit value; it throws only FormatException or OverflowException, FormatException exactly when the text is not an optionally signed digit string |
| Decimals.ParseDecimalString | EditorV2/Editor/IO/BuildingXmlIo.cs:351-354 | parsing the text written for any 32-bit value gives that value back |
| Decimals.DecimalStringInjective | EditorV2/Editor/IO/BuildingXmlIo.cs:73 | two different 32-bit values are never written as the same text |
| XmlIo.RectText | EditorV2/Editor/IO/BuildingXmlIo.cs:93-95 | the text of a `<rect>` element is the writer's format string filled with the four corner coordinates |
| XmlIo.EntranceText | EditorV2/Editor/IO/BuildingXmlIo.cs:102-104 | the text of an `<entrance>` element is the writer's format string with the position and the enum names of type and direction |
| XmlIo.Enclosed | EditorV2/Editor/IO/BuildingXmlIo.cs:90-97 | an element without attributes is written as its opening tag, its children's text and its closing tag |
| XmlIo.FloorText | EditorV2/Editor/IO/BuildingXmlIo.cs:84-107 | the text of a floor is `<floor>`, the `<subbounds>` block of its Unavailable runs, one line per entrance, `</floor>` |
| XmlIo.FloorTextOf | EditorV2/Editor/IO/BuildingXmlIo.cs:84-107 | the same for any rectangle and entrance elements |
| XmlIo.AttributeStep | EditorV2/Editor/IO/BuildingXmlIo.cs:68-76 | each ` name="value"` concatenated to the root tag adds one attribute to its attribute list |
| XmlIo.WellformedGrids | BuildGen/Common/Data/FloorplanGrid.cs:33-42 | every floor of a well-formed building has a grid whose tile count is a multiple of its stride |
| XmlIo.DocumentText | EditorV2/Editor/IO/BuildingXmlIo.cs:64-111 | the document of a description tree is the XML declaration, the root tag with its attributes, the floorplans block and the closing tag |
| XmlIo.BuildingXmlIo.constructor | EditorV2/Editor/IO/BuildingXmlIo.cs:56-62 | a new reader/writer has no error message |
| XmlIo.BuildingXmlIo.ExportBuildingDescription | EditorV2/Editor/IO/BuildingXmlIo.cs:56-113 | null and the error message for a missing building, one without floors or an invalid one; otherwise the document of the building's description tree, leaving the message alone |
| XmlIo.BuildingXmlIo.Describe | EditorV2/Editor/IO/BuildingXmlIo.cs:64-111 | the text the writer concatenates is the document of the description tree of the building's settings and floors |
| XmlIo.BuildingXmlIo.WriteRootTag | EditorV2/Editor/IO/BuildingXmlIo.cs:67-76 | the opening root tag carries `seed` only when it is not 0, `constraints` only when non-empty, then the floor count and the three dimensions |
| XmlIo.BuildingXmlIo.WriteFloors | EditorV2/Editor/IO/BuildingXmlIo.cs:81-108 | the loop over the floors writes the element of every floor, in order |
| XmlIo.BuildingXmlIo.WriteFloor | EditorV2/Editor/IO/BuildingXmlIo.cs:84-107 | the text of one floor is the rendering of its floor element |
| XmlIo.BuildingXmlIo.WriteRects | EditorV2/Editor/IO/BuildingXmlIo.cs:91-96 | one `<rect>` line per rectangle, in order |
| XmlIo.BuildingXmlIo.WriteEntrances | EditorV2/Editor/IO/BuildingXmlIo.cs:100-105 | one `<entrance>` line per entrance, in list order |
| XmlIo.BuildingXmlIo.ParseSubtractedBounds | EditorV2/Editor/IO/BuildingXmlIo.cs:337-362 | the floor afterwards and the outcome are those of the value-level `ReadRects` on the children |
| XmlIo.BuildingXmlIo.ParseRect | EditorV2/Editor/IO/BuildingXmlIo.cs:341-357 | the floor afterwards and the outcome are those of `ReadRect` on the child |
| XmlIo.BuildingXmlIo.ParseEntrance | EditorV2/Editor/IO/BuildingXmlIo.cs:364-382 | the floor afterwards and the outcome are those of `ReadEntrance` |
| XmlIo.BuildingXmlIo.ParseFloor | EditorV2/Editor/IO/BuildingXmlIo.cs:306-328 | the floor afterwards and the outcome are those of `ReadFloor` on the children |
| XmlIo.BuildingXmlIo.ParseFloorChild | EditorV2/Editor/IO/BuildingXmlIo.cs:310-324 | the floor afterwards and the outcome are those of `ReadFloorChild` |
| XmlIo.BuildingXmlIo.ParseFloorList | EditorV2/Editor/IO/BuildingXmlIo.cs:266-277 | the floors, the next floor index and the outcome are those of `ReadFloorList`; the grids' arrays stay the same objects |
| XmlIo.BuildingXmlIo.ParseFloorListChild | EditorV2/Editor/IO/BuildingXmlIo.cs:268-276 | one `<floorplans>` child changes the floors and the index as `FloorListStep` says |
| XmlIo.BuildingXmlIo.ParseFloorAt | EditorV2/Editor/IO/BuildingXmlIo.cs:270-272 | parsing into one floor leaves every other floor as it was |
| XmlIo.BuildingXmlIo.ParseFloorplans | EditorV2/Editor/IO/BuildingXmlIo.cs:261-279 | the floors, the floor count read and the outcome are those of `ReadFloorplans` from index 0 |
| XmlIo.BuildingXmlIo.ReadFloorsInto | EditorV2/Editor/IO/BuildingXmlIo.cs:260-296 | result, floors and stored message agree with `ReadFloors` |
| XmlIo.BuildingXmlIo.Conclude | EditorV2/Editor/IO/BuildingXmlIo.cs:281-296 | result and stored message agree with `Concluded` |
| XmlIo.BuildingXmlIo.ParseBuilding | EditorV2/Editor/IO/BuildingXmlIo.cs:229-297 | result, floors and stored message agree with `ReadBuilding` |
| XmlIo.BuildingXmlIo.CreateBuilding | EditorV2/Editor/IO/BuildingXmlIo.cs:241-258 | the building created before the floorplans agrees with `NewBuilding` |
| BuildingDescriptions.RectElements | EditorV2/Editor/IO/BuildingXmlIo.cs:91-96 | one `<rect>` element per rectangle, in order |
| BuildingDescriptions.EntranceElements | EditorV2/Editor/IO/BuildingXmlIo.cs:100-105 | one `<entrance>` element per entrance, in order |
| BuildingDescriptions.FloorElements | EditorV2/Editor/IO/BuildingXmlIo.cs:81-108 | one `<floor>` element per floor, in order |
| BuildingDescriptions.ReadRect | EditorV2/Editor/IO/BuildingXmlIo.cs:341-357 | a `<rect>` child never refuses and changes only tiles; when a coordinate fails to parse, the floor is unchanged and the exception is FormatException or OverflowException |
| BuildingDescriptions.ReadRects | EditorV2/Editor/IO/BuildingXmlIo.cs:337-362 | `ParseSubtractedBounds` never returns false and changes neither entrances, rooms nor the grid's shape |
| BuildingDescriptions.ReadRectsSnoc | EditorV2/Editor/IO/BuildingXmlIo.cs:339-359 | after a prefix read without failure, the next child is read on the floor it left |
| BuildingDescriptions.ReadRectsStops | EditorV2/Editor/IO/BuildingXmlIo.cs:339-359 | once a child throws, the children after it change nothing |
| BuildingDescriptions.ReadEntrance | EditorV2/Editor/IO/BuildingXmlIo.cs:364-382 | false exactly when one of the four attributes is missing; a refused or throwing entrance leaves the floor unchanged; rooms and grid shape never change |
| BuildingDescriptions.ReadFloorChild | EditorV2/Editor/IO/BuildingXmlIo.cs:310-324 | the child switch changes neither rooms nor the grid's shape |
| BuildingDescriptions.ReadFloor | EditorV2/Editor/IO/BuildingXmlIo.cs:306-328 | `ParseFloor` changes neither rooms nor the grid's shape |
| BuildingDescriptions.ReadFloorSnoc | EditorV2/Editor/IO/BuildingXmlIo.cs:308-325 | after a prefix read without failure, the next child is read on the floor it left |
| BuildingDescriptions.ReadFloorStops | EditorV2/Editor/IO/BuildingXmlIo.cs:313-322 | once a child returns false or throws, the children after it change nothing |
| BuildingDescriptions.ReadFloorList | EditorV2/Editor/IO/BuildingXmlIo.cs:266-277 | the floor count stays, every grid stays valid, rooms stay, and the floor index only grows |
| BuildingDescriptions.FloorListStep | EditorV2/Editor/IO/BuildingXmlIo.cs:268-276 | one child keeps the floor count, grid validity and rooms, and never lowers the index |
| BuildingDescriptions.FloorListStepFloor | EditorV2/Editor/IO/BuildingXmlIo.cs:268-276 | a `<floor>` child at an existing index replaces only that floor, and advances the index exactly when the floor was read in full |
| BuildingDescriptions.ReadFloorListSnoc | EditorV2/Editor/IO/BuildingXmlIo.cs:266-277 | the list read is the step function folded over the children |
| BuildingDescriptions.ReadFloorListStops | EditorV2/Editor/IO/BuildingXmlIo.cs:272-273 | once a floor fails, the floor elements after it change nothing |
| BuildingDescriptions.ReadFloorplans | EditorV2/Editor/IO/BuildingXmlIo.cs:261-279 | the floor count stays, every grid stays valid, rooms stay, and the floor index only grows |
| BuildingDescriptions.ReadFloorplansSnoc | EditorV2/Editor/IO/BuildingXmlIo.cs:262-278 | the next root child continues from the floors and index the previous ones left |
| BuildingDescriptions.ReadFloorplansStops | EditorV2/Editor/IO/BuildingXmlIo.cs:272-273 | once a floor fails, the root children after it change nothing |
| BuildingDescriptions.ReadBuilding | EditorV2/Editor/IO/BuildingXmlIo.cs:229-297 | a building is returned only when all its floors are valid, and then the message is never "Invalid building" |
| BuildingDescriptions.NewBuilding | EditorV2/Editor/IO/BuildingXmlIo.cs:241-258 | the floors created before the floorplans all have valid grids |
| BuildingDescriptions.NewBuildingOk | EditorV2/Editor/IO/BuildingXmlIo.cs:241-258 | when nothing throws: `count` empty floors (none for a count of 0 or less) with the parsed seed, or 0 without one, and the constraint set name as written |
| BuildingDescriptions.ReadFloors | EditorV2/Editor/IO/BuildingXmlIo.cs:260-296 | floors are returned only when all are valid, and then the message is never "Invalid building" |
| BuildingDescriptions.Concluded | EditorV2/Editor/IO/BuildingXmlIo.cs:281-296 | the same for the count and validity checks after the floorplans |
| BuildingDescriptions.AddAll | BuildGen/Common/Data/Floor.cs:31-37 | adding entrances one by one changes neither rooms nor the grid's shape |
| BuildingDescriptions.AddAllEffect | BuildGen/Common/Data/Floor.cs:31-37 | the entrances are appended in order, and exactly the tiles under one of them turn Other |
| BuildingDescriptions.RectAttributes | EditorV2/Editor/IO/BuildingXmlIo.cs:343-346 | the four attributes of a written `<rect>` are found with the decimal text of its corners |
| BuildingDescriptions.RectRead | EditorV2/Editor/IO/BuildingXmlIo.cs:341-357 | reading a written `<rect>` marks exactly its area Unavailable and does not fail |
| BuildingDescriptions.EntranceRead | EditorV2/Editor/IO/BuildingXmlIo.cs:364-382 | reading a written `<entrance>` adds that same entrance and does not fail |
| BuildingDescriptions.ReadRectsOfRects | EditorV2/Editor/IO/BuildingXmlIo.cs:337-362 | reading the `<rect>` elements of a list of rectangles sets each of them Unavailable, in order |
| BuildingDescriptions.RunsInt32 | BuildGen/Common/Data/FloorplanGrid.cs:109-142 | the runs `FindRectangles` reports fit a 32-bit `int` when the grid does |
| BuildingDescriptions.SubboundsRead | EditorV2/Editor/IO/BuildingXmlIo.cs:312-317 | the `<subbounds>` written for a floor, read on a fresh floor, sets exactly the tiles the floor has Unavailable |
| BuildingDescriptions.ReadEntrancesAfter | EditorV2/Editor/IO/BuildingXmlIo.cs:318-323 | after the `<subbounds>`, the written `<entrance>` elements add the same entrances, in order |
| BuildingDescriptions.ReadFloorOfElement | EditorV2/Editor/IO/BuildingXmlIo.cs:306-328 | the written `<floor>` read on a fresh floor gives its Unavailable area and then its entrances |
| BuildingDescriptions.Restored | EditorV2/Editor/IO/BuildingXmlIo.cs:245-249 | the restored floor has a valid grid and no rooms |
| BuildingDescriptions.Partial | EditorV2/Editor/IO/BuildingXmlIo.cs:261-279 | the floors after the first `n` `<floor>` elements keep their count and valid grids |
| BuildingDescriptions.ReadFloorListPrefix | EditorV2/Editor/IO/BuildingXmlIo.cs:266-277 | reading the first `n` written floors restores exactly those floors and counts `n` |
| BuildingDescriptions.RootAttributes | EditorV2/Editor/IO/BuildingXmlIo.cs:232-258 | each attribute the reader asks for is found in the writer's root element with the value written |
| BuildingDescriptions.FloorplansList | EditorV2/Editor/IO/BuildingXmlIo.cs:261-279 | the written `<floorplans>` restores every floor and counts them all |
| BuildingDescriptions.HeaderRead | EditorV2/Editor/IO/BuildingXmlIo.cs:232-258 | the written root attributes read back as written, so reading goes on to the floors with the writer's settings |
| BuildingDescriptions.NewBuildingRead | EditorV2/Editor/IO/BuildingXmlIo.cs:241-258 | the written root creates one empty floor per floor written, with the same seed and dimensions |
| BuildingDescriptions.RestoredValid | EditorV2/Editor/IO/BuildingXmlIo.cs:287-291 | every floor read back is valid when every floor written was |
| BuildingDescriptions.RestoredTiles | EditorV2/Editor/IO/BuildingXmlIo.cs:306-382 | a restored floor has the written entrances; its tiles are Other under an entrance, else Unavailable where the written one was, else Vacant |
| BuildingDescriptions.DescriptionRoundTrip | EditorV2/Editor/IO/BuildingXmlIo.cs:56-297 | reading back a written description gives a building: every floor restored, the seed and the dimensions, the constraint set only when non-empty, and no error message |
| MeshParts.WallOrderSides | BuildGen/Common/IO/BuildingXmlIo.cs:909-911 | the `cdir` loop's order, `ToDirection` of 0 to 3, is North, South, West, East, and it holds every side and nothing else |
| MeshParts.OpenSideMeaning | BuildGen/Common/IO/BuildingXmlIo.cs:433-439 | a side needs a wall when `ToIndex` of the neighbour is -1 or the neighbour is neither Passage nor Other |
| MeshParts.TilePosition | BuildGen/Common/IO/BuildingXmlIo.cs:418 | the position `ToPosition` gives a tile index is in bounds and `ToIndex` maps it back to the index |
| GeneratorMesh.GenerateListValidWindowTiles | BuildGen/Common/IO/BuildingXmlIo.cs:658-680 | the loop with its two-element history reports exactly the offsets of `WindowOffsets` |
| GeneratorMesh.WindowOffsetsMeaning | BuildGen/Common/IO/BuildingXmlIo.cs:664-677 | an offset is reported exactly when it lies strictly inside the scanned stretch and it and both neighbours face a blocked tile; offsets come out increasing |
| GeneratorMesh.WindowOffsetsMembers | BuildGen/Common/IO/BuildingXmlIo.cs:669-672 | the membership half of that statement |
| GeneratorMesh.WindowOffsetsIncreasing | BuildGen/Common/IO/BuildingXmlIo.cs:664-677 | the ordering half of that statement |
| GeneratorMesh.WindowOffsetsStep | BuildGen/Common/IO/BuildingXmlIo.cs:669-672 | one more step reports the previous offset exactly when it and the two steps before it are blocked |
| GeneratorMesh.ScanStep | BuildGen/Common/IO/BuildingXmlIo.cs:664-677 | one pass of the loop body takes the scan state after `n` steps to the state after `n + 1` |
| GeneratorMesh.Wall | BuildGen/Common/IO/BuildingXmlIo.cs:699-810 | `GenerateWall` succeeds exactly for the four sides; otherwise it throws |
| GeneratorMesh.WallShape | BuildGen/Common/IO/BuildingXmlIo.cs:740-809 | no offsets give one full-height panel; otherwise the triangle count follows from the offsets, the 1st, 3rd, 5th… offsets are windows, and one tile is recorded per window, at its offset along the wall |
| GeneratorMesh.WindowIndicesOfOffsets | BuildGen/Common/IO/BuildingXmlIo.cs:782-802 | one tile index is recorded for every other offset, starting with the first, and it is `ToIndex` of that offset along the wall |
| GeneratorMesh.StretchWindow | BuildGen/Common/IO/BuildingXmlIo.cs:787-799 | a stretch holds a window panel ending one tile past its offset exactly when its index is even |
| GeneratorMesh.StretchesShape | BuildGen/Common/IO/BuildingXmlIo.cs:782-802 | `n` offsets give `n + (n+1)/2` panels, and the window panels are those of the even offsets |
| GeneratorMesh.WallPanels | BuildGen/Common/IO/BuildingXmlIo.cs:772-804 | the first full panel, the stretches and the closing panel hold windows only at the even offsets |
| GeneratorMesh.GenerateWall | BuildGen/Common/IO/BuildingXmlIo.cs:699-810 | throws ArgumentException exactly when `Wall` does; otherwise appends exactly `Wall`'s panels and window tiles to the mesh and list it is given |
| GeneratorMesh.ScannedNeighbours | BuildGen/Common/IO/BuildingXmlIo.cs:646-649 | scans started at the wall's own row or column test the row or column just outside the room; started as written, the South and East scans test one further out |
| GeneratorMesh.AsWrittenScanMissesWindow | BuildGen/Common/IO/BuildingXmlIo.cs:648 | a three by two room with an unavailable row below it has a South window at offset 1, which the scan as written does not find |
| GeneratorMesh.ScannedWallWindows | BuildGen/Common/IO/BuildingXmlIo.cs:646-654 | every tile a wall records is a window tile of that wall, one for every other offset of its scan |
| GeneratorMesh.RoomWindows | BuildGen/Common/IO/BuildingXmlIo.cs:639-656 | with the corrected South and East scan starts of the first finding, every tile a room records lies on one of its four walls, facing unavailable tiles, and the room's mesh ends with its floor |
| GeneratorMesh.ScansOfRoom | BuildGen/Common/IO/BuildingXmlIo.cs:644-654 | the four scans and walls of a room, with their starts and lengths spelled out; the South and East scans start on the room's last row and column (`BottomRight - 1`), the corrected start of the first finding, not the `BottomRight` of lines 648-649 |
| GeneratorMesh.ExportRoom | BuildGen/Common/IO/BuildingXmlIo.cs:639-656 | appends exactly the room's mesh and window tiles (North, South, West, East walls, then the floor), with the South and East windows of the corrected scan start |
| GeneratorMesh.LeafRoomsMembers | BuildGen/Common/IO/BuildingXmlIo.cs:618-629 | a room is drawn exactly when a room of the floor is it (having no children) or is its parent |
| GeneratorMesh.RoomsMeshWindows | BuildGen/Common/IO/BuildingXmlIo.cs:618-629 | every window tile of a list of rooms is a window tile of a wall of one of them |
| GeneratorMesh.RoomsLayerWindows | BuildGen/Common/IO/BuildingXmlIo.cs:602-637 | one floor element per floor, a window list for exactly the floor indices, and each recorded tile is a window tile of a drawn room |
| GeneratorMesh.ExportRoomsOfFloor | BuildGen/Common/IO/BuildingXmlIo.cs:610-629 | the mesh and window list of one floor are those of its drawn rooms in order, each room as `ExportRoom` writes it with the corrected scan start |
| GeneratorMesh.ExportRoomsLayer | BuildGen/Common/IO/BuildingXmlIo.cs:602-637 | the layer and the window lists are `RoomsOf` of the floors, whose South and East windows come from the corrected scan start |
| GeneratorLayers.PassageWallsMeaning | BuildGen/Common/IO/BuildingXmlIo.cs:422-440 | a side of a passage tile is walled exactly when its neighbour is off the grid or not walkable and it is not the side a Passage entrance opens to |
| GeneratorLayers.PassageFloorMeaning | BuildGen/Common/IO/BuildingXmlIo.cs:442-504 | a flat floor exactly when no entrance stands there, and a ramp in the entrance's facing exactly for West, East and South |
| GeneratorLayers.PassageTile | BuildGen/Common/IO/BuildingXmlIo.cs:414-592 | every piece written for a passage tile belongs to it, and the reversed floor comes last |
| GeneratorLayers.PassageTileShape | BuildGen/Common/IO/BuildingXmlIo.cs:414-592 | the pieces of one passage tile: its first floor, its walls, the reversed floor, and the triangle count they make |
| GeneratorLayers.PassageTilesMembers | BuildGen/Common/IO/BuildingXmlIo.cs:412-593 | the reversed floor of a tile is written exactly when the tile is Passage or Other, and every piece belongs to such a tile |
| GeneratorLayers.PassageSnoc | BuildGen/Common/IO/BuildingXmlIo.cs:412-593 | one tile more keeps both facts, whatever its pieces, as long as they belong to it and end with its reversed floor |
| GeneratorLayers.ExportPassagesFloor | BuildGen/Common/IO/BuildingXmlIo.cs:404-596 | the mesh of one floor is `PassageMesh` of it |
| GeneratorLayers.ExportPassagesLayer | BuildGen/Common/IO/BuildingXmlIo.cs:397-600 | the layer is `PassagesOf` the floors |
| GeneratorLayers.WallTilePieces | BuildGen/Common/IO/BuildingXmlIo.cs:812-866 | `GenerateWallTile` throws ArgumentException exactly for a facing that is not a side; otherwise two panels for a window, one otherwise, in the band the feature dictates |
| GeneratorLayers.TileUnavailable | BuildGen/Common/IO/BuildingXmlIo.cs:901-904 | at the position of a tile index, `CheckUnavailable` holds exactly when the tile is Unavailable |
| GeneratorLayers.ExteriorSideMeaning | BuildGen/Common/IO/BuildingXmlIo.cs:912-928 | a side carries panels exactly when it faces out, and they belong to that tile and side |
| GeneratorLayers.ExteriorSidesPanels | BuildGen/Common/IO/BuildingXmlIo.cs:909-929 | every panel of a tile lies on a side that faces out, with the band of the feature rule: a doorway where a Passage entrance opens, else a window for a window tile |
| GeneratorLayers.ExteriorSidesFacings | BuildGen/Common/IO/BuildingXmlIo.cs:909-929 | the sides that face out, and only they, carry panels |
| GeneratorLayers.ExteriorTileMeaning | BuildGen/Common/IO/BuildingXmlIo.cs:899-930 | an available tile has panels on exactly its sides that face out; an unavailable tile has none |
| GeneratorLayers.ExteriorTilesMembers | BuildGen/Common/IO/BuildingXmlIo.cs:899-930 | every panel of a floor is one its own tile writes |
| GeneratorLayers.ExteriorOf | BuildGen/Common/IO/BuildingXmlIo.cs:883-937 | KeyNotFoundException exactly when some floor index has no window list; otherwise an exterior layer with one floor element per floor |
| GeneratorLayers.ExteriorOfRooms | BuildGen/Common/IO/BuildingXmlIo.cs:53-55 | with the rooms layer's window lists the exterior layer never throws, and a window panel stands only on a tile the rooms layer recorded |
| GeneratorLayers.ExportExteriorWallFloor | BuildGen/Common/IO/BuildingXmlIo.cs:890-933 | the mesh of one floor is `ExteriorMesh` of the floor and its window list |
| GeneratorLayers.ExportExteriorWallLayer | BuildGen/Common/IO/BuildingXmlIo.cs:883-937 | the result is `ExteriorOf` the floors and window lists |
| GeneratorLayers.InteriorTilesMembers | BuildGen/Common/IO/BuildingXmlIo.cs:953-972 | the interior floor covers exactly the available tiles, each once and in index order |
| GeneratorLayers.InteriorSnoc | BuildGen/Common/IO/BuildingXmlIo.cs:953-972 | one tile more keeps those three facts |
| GeneratorLayers.ExportInteriorFloor | BuildGen/Common/IO/BuildingXmlIo.cs:946-975 | the mesh of one floor is `InteriorMesh` of it |
| GeneratorLayers.ExportInteriorFloorLayer | BuildGen/Common/IO/BuildingXmlIo.cs:939-979 | the layer is `InteriorOf` the floors |
| GeneratorLayers.Roofs | BuildGen/Common/IO/BuildingXmlIo.cs:990-1001 | one roof piece per rectangle of `FindRectanglesExclusive(Unavailable)`, in order |
| GeneratorLayers.CeilingShape | BuildGen/Common/IO/BuildingXmlIo.cs:981-1006 | throws InvalidOperationException exactly for a building without floors; otherwise one empty floor element per floor and a last one whose roof covers exactly the available tiles of the top floor, none twice |
| GeneratorLayers.ExportCeilingLayer | BuildGen/Common/IO/BuildingXmlIo.cs:981-1006 | the result is `CeilingOf` the floors |
| GeneratorLayers.MeshOfShape | BuildGen/Common/IO/BuildingXmlIo.cs:40-67 | the export fails exactly for a building without floors; otherwise the document carries the seed, `tmp`, the floor count and the five layers in order, each with one floor element per floor except the ceiling, which has one more |
| GeneratorLayers.MeshOfLayers | BuildGen/Common/IO/BuildingXmlIo.cs:46-58 | the document is built from the five layer writers, and fails when the ceiling or the exterior layer throws |
| GeneratorLayers.ExportMesh | BuildGen/Common/IO/BuildingXmlIo.cs:40-67 | the result is `MeshOf` the floors and the seed, whose rooms layer and exterior window panels use the corrected scan start |
| GeneratorLayers.ExportBuildingMesh | BuildGen/Common/IO/BuildingXmlIo.cs:40-67 | the result is `MeshOf` the building's floors and seed, with the windows of the corrected scan start |
| EditorMesh.EditorWallsMeaning | EditorV2/Editor/IO/BuildingXmlIo.cs:401-522 | a side of a passage tile is walled exactly when its neighbour is off the grid or neither Passage nor Other, entrance or not |
| EditorMesh.EditorPassageTileShape | EditorV2/Editor/IO/BuildingXmlIo.cs:401-522 | a passage tile writes a floor, two triangles per wall and a reversed floor; its walls are the generator's plus the open side a Passage entrance opens to |
| EditorMesh.ExportPassagesFloor | EditorV2/Editor/IO/BuildingXmlIo.cs:393-526 | the mesh of one floor is that of all its tiles in order |
| EditorMesh.ExportPassagesLayer | EditorV2/Editor/IO/BuildingXmlIo.cs:384-530 | the layer is `EditorPassagesOf` the floors |
| EditorMesh.EditorRoomsShape | EditorV2/Editor/IO/BuildingXmlIo.cs:549-628 | every room writes exactly ten triangles, its four walls and its floor, whatever its children |
| EditorMesh.ExportRoomsFloor | EditorV2/Editor/IO/BuildingXmlIo.cs:541-631 | the mesh of one floor is that of its rooms in order |
| EditorMesh.ExportRoomsLayer | EditorV2/Editor/IO/BuildingXmlIo.cs:532-635 | the layer is `EditorRoomsOf` the floors |
| EditorMesh.EditorMeshOf | EditorV2/Editor/IO/BuildingXmlIo.cs:30-54 | the document carries the seed, `tmp` and the floor count, a passages and a rooms layer with one floor element per floor, and a ceiling layer with none |
| EditorMesh.ExportBuildingMesh | EditorV2/Editor/IO/BuildingXmlIo.cs:30-54 | always a document, as nothing the editor's layer writers call throws |
| Constraints.FindById | BuildGen/Common/Constraints/ConstraintSet.cs:52-61 | None exactly when no definition has the id; otherwise the first definition that has it |
| Constraints.FirstMatch | BuildGen/Common/Constraints/ConstraintSet.cs:54-58 | the lookup returns the definition at the first position whose id matches |
| Constraints.FindAppend | BuildGen/Common/Constraints/ConstraintSet.cs:46 | after an append, an id found before is still found there, and only otherwise is the new definition looked at |
| Constraints.NewDefinition | BuildGen/Common/Constraints/ConstraintSet.cs:33-44 | the stored definition has the given id, type, split set, size bounds and amounts, and the defaults for the rest |
| Constraints.RegisterKeepsIdsValid | BuildGen/Common/Constraints/ConstraintSet.cs:25-50 | registering a fresh, non-empty id keeps every stored id present, non-empty and unique; the new id finds the new definition and every other id finds what it found before |
| Constraints.ConstraintSet.constructor | BuildGen/Common/Constraints/ConstraintSet.cs:15-18 | an empty registry |
| Constraints.ConstraintSet.GetZoneDefinitionById | BuildGen/Common/Constraints/ConstraintSet.cs:52-61 | the loop returns `FindById` of the stored definitions |
| Constraints.ConstraintSet.RegisterZoneDefinitionRange | BuildGen/Common/Constraints/ConstraintSet.cs:25-50 | refused, storing nothing, exactly when the id is known, a minimum exceeds its maximum, or the id is null or empty; otherwise the new definition is appended; the ids stay valid |
| Constraints.ConstraintSet.RegisterZoneDefinition | BuildGen/Common/Constraints/ConstraintSet.cs:20-23 | the fixed-size overload is refused exactly when the id is known, null or empty; otherwise it appends a definition whose minimum and maximum sizes are equal |
| ConstraintEditors.IndexFrom | EditorV2/Editor/ConstraintFileEditor.xaml.cs:53 | -1 exactly when the pattern does not occur from `i` on; otherwise its first occurrence from `i` on |
| ConstraintEditors.IndexOf | EditorV2/Editor/ConstraintFileEditor.xaml.cs:53 | `string.IndexOf`: -1 exactly when the pattern does not occur; otherwise its first occurrence |
| ConstraintEditors.LastFrom | EditorV2/Editor/ConstraintFileEditor.xaml.cs:61 | -1 exactly when the pattern does not occur up to `i`; otherwise its last occurrence up to `i` |
| ConstraintEditors.LastIndexOf | EditorV2/Editor/ConstraintFileEditor.xaml.cs:61 | `string.LastIndexOf`: -1 exactly when the pattern does not occur; otherwise its last occurrence |
| ConstraintEditors.Insert | EditorV2/Editor/ConstraintFileEditor.xaml.cs:64-66 | `string.Insert`: the text before the position, then the inserted text, then the rest |
| ConstraintEditors.InsertZone | EditorV2/Editor/ConstraintFileEditor.xaml.cs:53-67 | no new text exactly when the file has no `</constraints>` |
| ConstraintEditors.InsertZoneCases | EditorV2/Editor/ConstraintFileEditor.xaml.cs:61-66 | without a `</floorconstraint>` the generated set goes in front of the first `</constraints>`; otherwise the zone and a newline go in front of the last `</floorconstraint>` |
| ConstraintEditors.InsertKeeps | EditorV2/Editor/ConstraintFileEditor.xaml.cs:64-66 | an occurrence before the insertion point stays where it was, one after it moves by the inserted length |
| ConstraintEditors.TagsApart | EditorV2/Editor/ConstraintFileEditor.xaml.cs:53-61 | a `</floorconstraint>` never starts strictly inside a `</constraints>` |
| ConstraintEditors.InsertedSlice | EditorV2/Editor/ConstraintFileEditor.xaml.cs:64-66 | the inserted text is found at the insertion point |
| ConstraintEditors.GeneratedSetParts | EditorV2/Editor/ConstraintFileEditor.xaml.cs:64 | the generated set holds the zone right after its opening, followed by a `</floorconstraint>` |
| ConstraintEditors.GeneratedKeepsTags | EditorV2/Editor/ConstraintFileEditor.xaml.cs:64 | after the generated set is inserted the file has both a `</constraints>` and a `</floorconstraint>` |
| ConstraintEditors.InSetKeepsTags | EditorV2/Editor/ConstraintFileEditor.xaml.cs:66 | after a zone is inserted into the last set, both tags are still there |
| ConstraintEditors.InsertZoneKeepsTags | EditorV2/Editor/ConstraintFileEditor.xaml.cs:53-67 | after any insertion the next one succeeds and goes into a set, so a second generated set is never written |
| ConstraintEditors.InsertZoneHoldsZone | EditorV2/Editor/ConstraintFileEditor.xaml.cs:53-67 | the zone's text occurs in the new file |
| ConstraintEditors.ConstraintFileEditor.constructor | EditorV2/Editor/ConstraintFileEditor.xaml.cs:24-39 | the editor holds the given text and has raised no change yet |
| ConstraintEditors.ConstraintFileEditor.NewZoneBtnClick | EditorV2/Editor/ConstraintFileEditor.xaml.cs:46-71 | nothing when the dialog was not accepted; the message and nothing else without a `</constraints>`; otherwise the zone inserted as `InsertZone` says and one change raised |
| ZoneForms.Expect | EditorV2/Editor/NewZoneForm.xaml.cs:44-73 | a literal is read exactly when the text starts with it, and the rest follows it |
| ZoneForms.Until | EditorV2/Editor/NewZoneForm.xaml.cs:44-73 | the text before the first stop character and the rest, which starts with that character |
| ZoneForms.ExpectLit | EditorV2/Editor/NewZoneForm.xaml.cs:44-73 | a literal followed by anything is read, leaving what follows |
| ZoneForms.UntilStop | EditorV2/Editor/NewZoneForm.xaml.cs:44-73 | a value without the stop character is read up to the stop that ends it |
| ZoneForms.ReadBoundOf | EditorV2/Editor/NewZoneForm.xaml.cs:52-55 | a bound is read back as the two texts it was written from, `<value>` or `<range>` |
| ZoneForms.ReadValueOf | EditorV2/Editor/NewZoneForm.xaml.cs:53 | a `<value>` reads back as that text for both minimum and maximum |
| ZoneForms.ReadRangeOf | EditorV2/Editor/NewZoneForm.xaml.cs:55 | a `<range>` reads back as its two texts |
| ZoneForms.ReadHeadOf | EditorV2/Editor/NewZoneForm.xaml.cs:44 | the opening reads back as the id and the type |
| ZoneForms.ReadSubdivOf | EditorV2/Editor/NewZoneForm.xaml.cs:46-47 | the `subdivset` attribute reads back as the constraint set box, "" when it was empty |
| ZoneForms.ReadTailOf | EditorV2/Editor/NewZoneForm.xaml.cs:49-73 | the width, height and amount blocks read back as their texts |
| ZoneForms.ReadZoneWith | EditorV2/Editor/NewZoneForm.xaml.cs:44-73 | the whole element reads back as the form's fields, given how the amount reads back |
| ZoneForms.ZoneTextRoundTrip | EditorV2/Editor/NewZoneForm.xaml.cs:44-73 | the element of a filled form reads back as exactly the form's id, type, constraint set and the six bounds |
| ZoneForms.ZoneTextEnds | EditorV2/Editor/NewZoneForm.xaml.cs:44-73 | the element opens with the id and the type and ends by closing the amount and the zone |
| ZoneForms.ZoneTextSubdiv | EditorV2/Editor/NewZoneForm.xaml.cs:46-47 | a `subdivset` attribute follows the type exactly when the constraint set box is filled |
| ZoneForms.AsWrittenAmountIsHeight | EditorV2/Editor/NewZoneForm.xaml.cs:68-69 | as written, a single-value amount reads back as the height's minimum, whatever the amount boxes hold |
| ZoneForms.AsWrittenCounterexample | EditorV2/Editor/NewZoneForm.xaml.cs:68-69 | height 1 to 3 and an amount of exactly 2 are written with an amount of 1 |
| ZoneForms.AsWrittenDiffers | EditorV2/Editor/NewZoneForm.xaml.cs:68-69 | the text as written and the intended text differ exactly when the amount is a single value other than the height's minimum |
| ZoneForms.NewZoneForm.constructor | EditorV2/Editor/NewZoneForm.xaml.cs:20-25 | no element written and no dialog result yet |
| ZoneForms.NewZoneForm.OkButtonClick | EditorV2/Editor/NewZoneForm.xaml.cs:27-82 | a box empty: the missing-values message and nothing changed; no type: the missing-type message and nothing changed; otherwise the corrected element of the second finding (`ZoneTextOf`, a single-value amount written from the amount box) and the dialog accepted |
| ZoneForms.NewZoneForm.CancelButtonClick | EditorV2/Editor/NewZoneForm.xaml.cs:84-87 | the dialog refused and the element left as it was |
| Viewer.TrianglesOutShape | BuildGen/Viewer/Assets/Scripts/Zone.cs:13-26 | six vertices per triangle, triangle `i`'s six at offset `6i`: its front face, then its back face |
| Viewer.TrianglesOutSame | BuildGen/Viewer/Assets/Scripts/Zone.cs:13-26 | the first `k` triangles written depend only on the first `3k` vertices |
| Viewer.TrianglesOutFrom | BuildGen/Viewer/Assets/Scripts/Zone.cs:13-26 | every vertex written is one of the zone's |
| Viewer.ZoneOutputShape | BuildGen/Viewer/Assets/Scripts/Zone.cs:13-26 | a zone writes exactly `6 * (count / 3)` vertices; one or two trailing vertices write nothing |
| Viewer.Zone.AppendToVertexBuffer | BuildGen/Viewer/Assets/Scripts/Zone.cs:11-27 | the list is extended by both faces of every whole triangle, in order |
| Viewer.Floor.AppendToVertexBuffer | Visualizador/Assets/Scripts/Floor.cs:16-25 | the list is extended by nothing for a disabled floor, otherwise by every zone's output in order |
| Viewer.NewFloor | Visualizador/Assets/Scripts/Floor.cs:10-14 | a new floor is enabled, has no zones and writes nothing |
| Viewer.ZonesOutputAppend | Visualizador/Assets/Scripts/Floor.cs:20-23 | the output of a split list of zones is the first part's output followed by the second's |
| Viewer.LayerColor | BuildGen/Viewer/Assets/Scripts/Layer.cs:28-41 | opaque red exactly for "passages", blue exactly for "ceiling", green exactly for "rooms", black for any other name |
| Viewer.Repeat | BuildGen/Viewer/Assets/Scripts/Layer.cs:43-46 | `n` copies of the colour |
| Viewer.RepeatAppend | BuildGen/Viewer/Assets/Scripts/Layer.cs:43-46 | copies of a colour appended to copies of it are the copies of the summed count |
| Viewer.ColorsStep | BuildGen/Viewer/Assets/Scripts/Layer.cs:22-47 | after each floor the colours added so far are exactly one per vertex added so far |
| Viewer.FloorsSnoc | BuildGen/Viewer/Assets/Scripts/Layer.cs:22-25 | one more floor appends exactly its own output |
| Viewer.Layer.AppendToVertexBuffer | BuildGen/Viewer/Assets/Scripts/Layer.cs:18-49 | the vertices extended by the layer's output (nothing when disabled), and the colours by the colour of its name once per vertex added |
| Viewer.NewLayer | BuildGen/Viewer/Assets/Scripts/Layer.cs:11-16 | a new layer is enabled, has no floors, is named "Unspecified" and writes nothing |
| Viewer.LayerOutputBound | BuildGen/Viewer/Assets/Scripts/Layer.cs:18-49 | a layer writes at most twice the vertices its zones hold, exactly twice when it and its floors are enabled and all zones hold whole triangles, and none when disabled |
| Viewer.FloorsOutputBound | Visualizador/Assets/Scripts/Floor.cs:16-25 | the same bound for a list of floors |
| Viewer.ZonesOutputBound | BuildGen/Viewer/Assets/Scripts/Zone.cs:11-27 | the same bound for a list of zones |
| Viewer.BuffersInStep | Visualizador/Assets/Scripts/Building.cs:22-33 | the colour buffer always has one colour per vertex |
| Viewer.LayersVerticesAppend | Visualizador/Assets/Scripts/Building.cs:27-30 | the vertex buffer of split layers is that of the first part followed by that of the second |
| Viewer.LayersColorsAppend | Visualizador/Assets/Scripts/Building.cs:27-30 | the same for the colour buffer, so each layer's colours sit at its vertices' positions |
| Viewer.DescriptionStep | Visualizador/Assets/Scripts/Building.cs:69-87 | one turn of the loop appends exactly the line of the next layer |
| Viewer.CountContents | Visualizador/Assets/Scripts/Building.cs:73-84 | the zones and vertices of all the layer's floors, enabled or not |
| Viewer.Building.constructor | Visualizador/Assets/Scripts/Building.cs:14-20 | no layers, empty buffers and no floors |
| Viewer.Building.UpdateVertexBuffer | Visualizador/Assets/Scripts/Building.cs:22-33 | both buffers cleared and refilled from the layers in order, one colour per vertex |
| Viewer.Building.ContentsDescription | Visualizador/Assets/Scripts/Building.cs:63-91 | the layer count, then one line per layer with its name, index, floor count and the zone and vertex counts summed over all its floors |

The description code in BuildGen/Common/IO/BuildingXmlIo.cs:69-396 is the same, line for line, as EditorV2/Editor/IO/BuildingXmlIo.cs:56-383. The rows above cite the EditorV2 copy, and the model covers both.

## Left out

- Floating-point arithmetic is not modelled. Widths, heights, resolutions, mesh coordinates, vertex positions and colours are carried as opaque `real` data. The constraint set's size bounds are compared (`minWidth > maxWidth`, `minHeight > maxHeight`) as mathematical reals, so NaN and the infinities, which a `double` comparison treats differently (a NaN bound is never refused), are not modelled. The text of a float and its parsing (`ToString(CultureInfo.InvariantCulture)`, `float.Parse`) are function parameters of the writer and the reader.
- Because of that, the mesh exporters are modelled on their discrete parts only: which pieces each tile, wall and room writes, with which band and in which order. The corner coordinates of each `<triangle>` are not modelled, nor are `CreateXmlPoint`, `AppendRectangle`, `GenerateFloor` or the `XComment`s between pieces.
- The `name` attribute of each mesh layer comes from an enumeration that is not part of this model, so a layer keeps only its kind. `Direction.ToNumber`, which is not part of this model, only sets the local `entranceWall` in BuildGen/Common/IO/BuildingXmlIo.cs:429, which is never read afterwards, so the model leaves that assignment out.
- File and document I/O is left out: `Read` and `Parse` (XML schema validation, `XDocument.Load`), `document.Save`, the `Console.WriteLine` in the `catch` of `ExportBuildingMesh`, and the viewer's `Debug.Log`. The reader is modelled from the element tree that `ParseBuilding` walks.
- A `catch` that turns any exception into `false` or `null` is modelled by the exceptions that can actually be raised there (a missing floor list, `Last()` on no floors, a bad number); other runtime failures are not.
- `Building.AddFloor` computes the floor's rows and columns with `Math.Ceiling` on floats. The rows and columns are parameters of the reader and of `BuildingDescriptorEditor.AddNewFloor` instead.
- `int.Parse` is modelled for optionally signed ASCII digit strings. `Enum.Parse` is modelled for the exact enum names. Leading and trailing white space, numeric enum spellings and comma-separated flags are not accepted by the model.
- `Decimals.DecimalString` and `Decimals.ParseInt` are stated for the `int` range; the floor count, the entrance positions and the rectangle corners are required to fit it where the round trip needs them. A count over 2^31 - 1 wrapping around is not modelled.
- Grids.FloorplanGrid.Create: the stride is a `nat`, so a negative stride, which C#'s truncating `%` would accept, is not modelled; a zero stride is the modelled `DivideByZeroException` and a negative count the modelled `OverflowException` of the array allocation.
- `Rectangle.Area` returns a float in the source; the model keeps it an integer. `Rectangle.IsValid`, `Rectangle.ToString`, `RectangleF`, `PointF`, `Point.Distance` and `Point.GetHashCode` are not modelled; none of them is used by the core.
- `Region.Area` sums the pieces' areas in a `float` in the source; the model sums them as integers, so float rounding of large areas is not modelled.
- The `Parent` back-reference of a `Room` is not kept: a child room is reached only from its parent.
- BuildingEditor.BuildingDescriptorEditor.AddEntrance and BuildingEditor.BuildingDescriptorEditor.RemoveEntrance: the recursive propagation over the floors above and below is evaluated as a function, and its result is then written back floor by floor. The final floors are the source's; the order in which the source's recursion writes the intermediate states is not captured.
- The editor's drawing is left out: canvas rendering, `SetActiveFloor`'s redraw, `InitializeFloorList`, mouse handling and message boxes. Messages are returned as values.
- `ContentsModified` is an event in the source. In the model it is a counter of how many times it was raised, in `ConstraintFileEditor` and in `BuildingDescriptorEditor` (raised by `HandleBoundsOp`; the settings dialog that also raises it is not modelled).
- `NewZoneForm.ZoneText` starts as null; the model uses `None`. The form's `catch` around `OkButton_Click` cannot fire on the modelled string operations and is not modelled.
- ConstraintEditors.IndexOf and ConstraintEditors.LastIndexOf: `string.IndexOf(string)` and `string.LastIndexOf(string)` are culture-sensitive in .NET, and the model matches ordinally. The two agree unless the file contains characters the current culture ignores, such as U+00AD or zero-width characters, inside or next to a tag. Such files are not modelled.
- Viewer zones, floors and layers are values in the model. The aliasing of the same C# object in two lists is not captured; only the lists they append to and the building's buffers change. `Building.FloorHeight` is a float maximum and is not modelled.
- BuildingDescriptions.DescriptionRoundTrip: the round trip is proved over the element tree. The writer builds its text by concatenation and puts the constraint set name into the `constraints` attribute unescaped (EditorV2/Editor/IO/BuildingXmlIo.cs:72, BuildGen/Common/IO/BuildingXmlIo.cs:85). A name holding `"`, `<` or `&` therefore gives a document that XML loading rejects, and a line break in it reads back as a space. The model takes the step from text to tree as lossless, which holds only for names free of these characters.
- GeneratorMesh.ExportRoom, GeneratorMesh.ScansOfRoom, GeneratorMesh.RoomWindows, GeneratorMesh.ExportRoomsOfFloor, GeneratorMesh.ExportRoomsLayer, GeneratorLayers.ExportMesh, GeneratorLayers.ExportBuildingMesh: the South and East window scans start at `BottomRight.Y - 1` and `BottomRight.X - 1`, the corrected start of the first finding, not the `BottomRight.Y` and `BottomRight.X` of BuildGen/Common/IO/BuildingXmlIo.cs:648-649. The window lists and the exterior layer's window panels are therefore those of the intended program; the code as written is `GeneratorMesh.ScanStartAsWritten`, and `GeneratorMesh.AsWrittenScanMissesWindow` gives a room on which the two differ.
- ZoneForms.NewZoneForm.OkButtonClick: a single-value amount is written from the amount box (`ZoneTextOf`), the corrected text of the second finding, not from `HeightMinTextBox.Text` as EditorV2/Editor/NewZoneForm.xaml.cs:69 does; the code as written is `ZoneForms.ZoneTextAsWritten`, and `ZoneForms.AsWrittenDiffers` gives exactly the inputs on which the two differ.
- `ExportExteriorWallLayer` of EditorV2/Editor/IO/BuildingXmlIo.cs:637-660 is never called by the editor's `ExportBuildingMesh` and is not modelled.

## Findings

| source | as written | input that shows it | evidently intended | confidence | as-written member | corrected member |
|---|---|---|---|---|---|---|
| BuildGen/Common/IO/BuildingXmlIo.cs:648-649 | the South and East window scans start at `BottomRight.Y` and `BottomRight.X`, one row or column past the room, so they test the tiles two steps outside the room | a 3 by 2 room at the origin of a 3-column grid whose third row is Unavailable and fourth row Vacant: the South wall should get a window at offset 1, the scan as written finds none | start at `BottomRight.Y - 1` and `BottomRight.X - 1`, the wall's own row and column, as the matching `GenerateWall` calls at lines 652 and 654 do | high (not executed) | GeneratorMesh.AsWrittenScanMissesWindow | GeneratorMesh.ScannedNeighbours |
| EditorV2/Editor/NewZoneForm.xaml.cs:68-69 | a single-value amount writes `HeightMinTextBox.Text` instead of the amount | height 1 to 3 with an amount of exactly 2 writes `<amount><value>1</value></amount>` | write `AmountMinTextBox.Text`, as the range case at line 71 does | high (not executed) | ZoneForms.AsWrittenCounterexample | ZoneForms.ZoneTextRoundTrip |

In the first row, `GeneratorMesh.ExportRoom` uses the corrected start. `GeneratorMesh.ScannedNeighbours` proves that this start tests the tiles just outside the room, and that the start as written tests one step further out. In the second row, `ZoneForms.NewZoneForm.OkButtonClick` writes the corrected element (`ZoneTextOf`). `ZoneForms.ZoneTextRoundTrip` proves that this element reads back as the form's values. The code as written is `ZoneForms.ZoneTextAsWritten`, and `ZoneForms.AsWrittenDiffers` gives exactly the inputs on which the two differ.

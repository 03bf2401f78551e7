/** The data-only rooms and zone definitions (BuildGen/Common/Data/Room.cs,
    BuildGen/Common/Constraints/ZoneDefinition.cs, EditorV2/Editor/Data/Room.cs). */
module Rooms {
  import opened Wrappers
  import opened Points

  /** The zone-type enumeration is referenced but not part of this model; only its two members that the
      code names (Undefined and Public) are spelled out, every other member is carried by its name. */
  datatype ZoneType = Undefined | Public | NamedZoneType(name: string)

  /** A room of the generator's output: corners, entrance tile, the rooms subdividing it and its zone
      type. The `Parent` back reference is not kept: a child is reached only from its parent. */
  datatype Room = Room(TopLeft: Point, BottomRight: Point, Entrance: Point, Children: seq<Room>, Type: ZoneType)

  /** The constructor: all points at the origin, no children, Undefined type. */
  function NewRoom(): (r: Room)
    ensures r.TopLeft == Point(0, 0) && r.BottomRight == Point(0, 0) && r.Entrance == Point(0, 0)
    ensures r.Children == [] && r.Type == Undefined
  {
    Room(Point(0, 0), Point(0, 0), Point(0, 0), [], Undefined)
  }

  /** The editor's room: corners and entrance only. */
  datatype EditorRoom = EditorRoom(TopLeft: Point, BottomRight: Point, Entrance: Point)

  /** A zone definition of a constraint set; a null id or split set is None. */
  datatype ZoneDefinition = ZoneDefinition(
    Id: Option<string>, SplitConstraintSet: Option<string>, Type: ZoneType,
    MinWidth: real, MaxWidth: real, MinHeight: real, MaxHeight: real,
    MinAmount: int, MaxAmount: int, ExcludedFloorIndices: seq<int>)

  /** The field initialisers: no id, no split set, Public, every bound 1. */
  function DefaultZoneDefinition(): (z: ZoneDefinition)
    ensures z.Id == None && z.SplitConstraintSet == None && z.Type == Public
    ensures z.MinWidth == z.MaxWidth == z.MinHeight == z.MaxHeight == 1.0
    ensures z.MinAmount == z.MaxAmount == 1 && z.ExcludedFloorIndices == []
  {
    ZoneDefinition(None, None, Public, 1.0, 1.0, 1.0, 1.0, 1, 1, [])
  }
}

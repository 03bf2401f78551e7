/** Entrances of a floor (EditorV2/Editor/Data/Entrance.cs): a grid position, a kind and the direction the
    entrance opens towards. */
module Entrances {
  import opened Wrappers
  import opened Directions
  import opened Points

  /** Terminal: no path upwards; Entrance: no path downwards; Passage: into another section of the same
      floor; Transition: both up and down. */
  datatype EntranceType = Terminal | Entrance | Passage | Transition

  /** The enum's name, as string formatting writes it. */
  function TypeName(t: EntranceType): (s: string)
    ensures |s| > 0
  {
    match t
    case Terminal => "Terminal"
    case Entrance => "Entrance"
    case Passage => "Passage"
    case Transition => "Transition"
  }

  /** `Enum.Parse` on a name (numeric spellings are not modelled). */
  function ParseTypeName(s: string): (r: Option<EntranceType>)
    ensures r.Some? ==> TypeName(r.value) == s
  {
    if s == "Terminal" then Some(Terminal)
    else if s == "Entrance" then Some(EntranceType.Entrance)
    else if s == "Passage" then Some(Passage)
    else if s == "Transition" then Some(Transition)
    else None
  }

  lemma ParseTypeNameOfName(t: EntranceType)
    ensures ParseTypeName(TypeName(t)) == Some(t)
  {
  }

  datatype Entrance = Entrance(GridPosition: Point, Type: EntranceType, Direction: Direction)
  {
    /** The neighbouring tile the entrance opens onto: one of the four orthogonal neighbours for a
        cardinal direction, the entrance's own tile for Unspecified. */
    function GetConnectionPoint(): (p: Point)
      ensures IsCardinal(Direction) ==>
                (p.X == GridPosition.X && (p.Y - GridPosition.Y == 1 || GridPosition.Y - p.Y == 1)) ||
                (p.Y == GridPosition.Y && (p.X - GridPosition.X == 1 || GridPosition.X - p.X == 1))
      ensures Direction == Unspecified <==> p == GridPosition
      ensures IsHorizontal(Direction) ==> GridPosition.GetRelativeDirection(p) == Direction
      ensures IsVertical(Direction) ==> GridPosition.GetRelativeDirection(p) == GetOpposite(Direction)
    {
      RelativeDirectionOfAdvance(GridPosition, Direction, 1);
      GridPosition.Advance(Direction, 1)
    }
  }

  /** The constructor: position (x, y), type and direction stored unchanged. */
  function NewEntrance(x: int, y: int, kind: EntranceType, direction: Direction): (e: Entrance)
    ensures e.GridPosition.X == x && e.GridPosition.Y == y && e.Type == kind && e.Direction == direction
  {
    Entrance.Entrance(Point(x, y), kind, direction)
  }

  /** The connection point is the position moved one step in the entrance's direction, and moving one
      step back in the opposite direction returns to the entrance. */
  lemma ConnectionPointStepsBack(e: Entrance)
    ensures e.GetConnectionPoint().Advance(GetOpposite(e.Direction), 1) == e.GridPosition
  {
    AdvanceRoundTrip(e.GridPosition, e.Direction, 1);
  }
}

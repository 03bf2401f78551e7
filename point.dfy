/** Integer grid coordinates (EditorV2/Editor/Data/Point.cs). The source's `Point` is a struct, so every
    value is a copy; a datatype has exactly that semantics. */
module Points {
  import opened Directions

  datatype Point = Point(X: int, Y: int)
  {
    /** The `==` operator: componentwise equality. */
    function Equals(rhs: Point): (r: bool)
      ensures r <==> this == rhs
    {
      X == rhs.X && Y == rhs.Y
    }

    /** The `!=` operator: the negation of `==`. */
    function NotEquals(rhs: Point): (r: bool)
      ensures r <==> this != rhs
    {
      !Equals(rhs)
    }

    /** A copy moved `amount` tiles: North lowers Y, South raises Y, West lowers X, East raises X,
        Unspecified does not move. */
    function Advance(direction: Direction, amount: int): (r: Point)
      ensures direction == North ==> r == Point(X, Y - amount)
      ensures direction == South ==> r == Point(X, Y + amount)
      ensures direction == West ==> r == Point(X - amount, Y)
      ensures direction == East ==> r == Point(X + amount, Y)
      ensures direction == Unspecified ==> r == this
    {
      match direction
      case North => this.(Y := Y - amount)
      case South => this.(Y := Y + amount)
      case West => this.(X := X - amount)
      case East => this.(X := X + amount)
      case Unspecified => this
    }

    /** The direction in which `v` lies, testing X before Y. Its Y sense is the opposite of
        `Advance`'s: a point with a smaller Y is reported as South. */
    function GetRelativeDirection(v: Point): (r: Direction)
      ensures r == West <==> v.X < X
      ensures r == East <==> v.X > X
      ensures r == South <==> v.X == X && v.Y < Y
      ensures r == North <==> v.X == X && v.Y > Y
      ensures r == Unspecified <==> v == this
    {
      if v.X < X then West
      else if v.X > X then East
      else if v.Y < Y then South
      else if v.Y > Y then North
      else Unspecified
    }
  }

  /** Moving back by the same amount restores the point, and moving the opposite way is moving by
      the negated amount. */
  lemma AdvanceRoundTrip(p: Point, d: Direction, a: int)
    ensures p.Advance(d, a).Advance(d, -a) == p
    ensures p.Advance(GetOpposite(d), a) == p.Advance(d, -a)
  {
  }

  /** Two moves in the same direction add up. */
  lemma AdvanceTwice(p: Point, d: Direction, a: int, b: int)
    ensures p.Advance(d, a).Advance(d, b) == p.Advance(d, a + b)
  {
  }

  /** A step of `amount > 0` is reported by `GetRelativeDirection` as the same direction when it is
      horizontal and as the opposite direction when it is vertical. */
  lemma RelativeDirectionOfAdvance(p: Point, d: Direction, amount: int)
    requires amount > 0
    ensures IsHorizontal(d) ==> p.GetRelativeDirection(p.Advance(d, amount)) == d
    ensures IsVertical(d) ==> p.GetRelativeDirection(p.Advance(d, amount)) == GetOpposite(d)
    ensures d == Unspecified ==> p.GetRelativeDirection(p.Advance(d, amount)) == Unspecified
  {
  }

  lemma NorthStepReadsAsSouth(p: Point)
    ensures p.GetRelativeDirection(p.Advance(North, 1)) == South
  {
    RelativeDirectionOfAdvance(p, North, 1);
  }
}

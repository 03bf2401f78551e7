/** The compass directions of the grid and the helpers the editor and the exporters use on them
    (EditorV2/Editor/Data/Direction.cs). North is towards smaller Y, West towards smaller X. */
module Directions {
  import opened Wrappers

  /** Declared in the enum's own order: West, East, North, South, then Unspecified. */
  datatype Direction = West | East | North | South | Unspecified

  predicate IsCardinal(d: Direction)
  {
    d != Unspecified
  }

  /** North and South swap, West and East swap, Unspecified stays. */
  function GetOpposite(d: Direction): (r: Direction)
    ensures r != d <==> IsCardinal(d)
    ensures IsHorizontal(r) == IsHorizontal(d) && IsVertical(r) == IsVertical(d)
  {
    match d
    case North => South
    case South => North
    case West => East
    case East => West
    case Unspecified => Unspecified
  }

  function IsHorizontal(d: Direction): (r: bool)
    ensures r ==> !IsVertical(d)
    ensures r || IsVertical(d) <==> IsCardinal(d)
  {
    d == West || d == East
  }

  function IsVertical(d: Direction): bool
  {
    d == North || d == South
  }

  /** One step of the search order North, South, West, East, North, ...;
      `reverse` walks it backwards. Unspecified is left where it is. */
  function Advance(d: Direction, reverse: bool): (r: Direction)
    ensures IsCardinal(r) <==> IsCardinal(d)
    ensures IsCardinal(d) ==> r != d
  {
    match d
    case North => if !reverse then South else East
    case South => if !reverse then West else North
    case West => if !reverse then East else South
    case East => if !reverse then North else West
    case Unspecified => Unspecified
  }

  /** Opposite is an involution. */
  lemma OppositeInvolution(d: Direction)
    ensures GetOpposite(GetOpposite(d)) == d
  {
  }

  /** For a cardinal direction a reverse step undoes a forward step, and the other way round;
      Unspecified is a fixed point of both. */
  lemma AdvanceInverse(d: Direction, reverse: bool)
    ensures Advance(Advance(d, reverse), !reverse) == d
    ensures !IsCardinal(d) ==> Advance(d, reverse) == d
  {
  }

  /** `n` steps of `Advance` in the same sense. */
  function AdvanceN(d: Direction, reverse: bool, n: nat): Direction
  {
    if n == 0 then d else Advance(AdvanceN(d, reverse, n - 1), reverse)
  }

  /** Four steps in either sense come back to the start. */
  lemma FourStepsReturn(d: Direction, reverse: bool)
    ensures AdvanceN(d, reverse, 4) == d
  {
    var d1 := Advance(d, reverse);
    var d2 := Advance(d1, reverse);
    var d3 := Advance(d2, reverse);
    assert AdvanceN(d, reverse, 1) == d1;
    assert AdvanceN(d, reverse, 2) == d2;
    assert AdvanceN(d, reverse, 3) == d3;
  }

  /** The four steps from one cardinal direction visit every cardinal direction once. */
  lemma FourStepsVisitAll(d: Direction, reverse: bool, e: Direction)
    requires IsCardinal(d) && IsCardinal(e)
    ensures exists k :: 1 <= k <= 4 && AdvanceN(d, reverse, k) == e
  {
    var d1 := Advance(d, reverse);
    var d2 := Advance(d1, reverse);
    var d3 := Advance(d2, reverse);
    assert AdvanceN(d, reverse, 1) == d1;
    assert AdvanceN(d, reverse, 2) == d2;
    assert AdvanceN(d, reverse, 3) == d3;
    FourStepsReturn(d, reverse);
  }

  /** The source's int-to-direction mapping: 0 North, 1 South, 2 West, 3 East, anything else
      Unspecified. It does not follow the enum's declaration order. */
  function ToDirection(v: int): (r: Direction)
    ensures IsCardinal(r) <==> 0 <= v < 4
    ensures r == North <==> v == 0
    ensures r == South <==> v == 1
    ensures r == West <==> v == 2
    ensures r == East <==> v == 3
  {
    match v
    case 0 => North
    case 1 => South
    case 2 => West
    case 3 => East
    case _ => Unspecified
  }

  /** The enum's ordinal, which is what a cast to int gives: different from `ToDirection`'s numbering. */
  function Ordinal(d: Direction): nat
  {
    match d
    case West => 0
    case East => 1
    case North => 2
    case South => 3
    case Unspecified => 4
  }

  lemma ToDirectionIsNotOrdinal()
    ensures ToDirection(Ordinal(West)) == North
    ensures exists d :: IsCardinal(d) && ToDirection(Ordinal(d)) != d
  {
    assert ToDirection(Ordinal(West)) == North;
  }

  /** The enum's name, as `Enum.GetName` and string formatting write it. */
  function Name(d: Direction): (s: string)
    ensures |s| > 0
  {
    match d
    case West => "West"
    case East => "East"
    case North => "North"
    case South => "South"
    case Unspecified => "Unspecified"
  }

  /** `Enum.Parse` on a name (numeric spellings are not modelled). */
  function ParseName(s: string): (r: Option<Direction>)
    ensures r.Some? ==> Name(r.value) == s
  {
    if s == "West" then Some(West)
    else if s == "East" then Some(East)
    else if s == "North" then Some(North)
    else if s == "South" then Some(South)
    else if s == "Unspecified" then Some(Unspecified)
    else None
  }

  lemma ParseNameOfName(d: Direction)
    ensures ParseName(Name(d)) == Some(d)
  {
  }

}

/** A floor of a building (BuildGen/Common/Data/Floor.cs): its rooms, its entrances and its tile grid. */
module Floors {
  import opened Wrappers
  import opened Directions
  import opened Points
  import opened Grids
  import opened Entrances
  import opened Rooms
  import opened Seqs

  /** Whether an entrance stands on tile (x, y). */
  predicate At(e: Entrance, x: int, y: int)
  {
    e.GridPosition.X == x && e.GridPosition.Y == y
  }

  /** The index of the first entrance on (x, y), -1 when there is none. */
  function EntranceIndex(es: seq<Entrance>, x: int, y: int): (r: int)
    ensures -1 <= r < |es|
    ensures r == -1 <==> forall i :: 0 <= i < |es| ==> !At(es[i], x, y)
    ensures r != -1 ==> At(es[r], x, y) && forall j :: 0 <= j < r ==> !At(es[j], x, y)
  {
    if |es| == 0 then -1
    else if At(es[0], x, y) then 0
    else
      var r := EntranceIndex(es[1..], x, y);
      if r == -1 then -1 else r + 1
  }

  /** The state of a floor at one moment. */
  datatype FloorView = FloorView(grid: GridView, entrances: seq<Entrance>, rooms: seq<Room>)
  {
    /** `GetEntranceAt`: the first entrance on (x, y), or None. */
    function EntranceAt(x: int, y: int): (r: Option<Entrance>)
      ensures r.None? <==> forall i :: 0 <= i < |entrances| ==> !At(entrances[i], x, y)
      ensures r.Some? ==> r.value in entrances && At(r.value, x, y)
    {
      var i := EntranceIndex(entrances, x, y);
      if i == -1 then None else Some(entrances[i])
    }

    /** `AddEntrance`: the tile becomes Other (a no-op out of bounds) and the entrance is appended, even
        when another one already stands there. */
    function WithEntrance(x: int, y: int, kind: EntranceType, direction: Direction): (r: FloorView)
      ensures r.entrances == entrances + [NewEntrance(x, y, kind, direction)] && r.rooms == rooms
      ensures r.grid.Valid() == grid.Valid()
    {
      FloorView(grid.SetTile(x, y, Other), entrances + [NewEntrance(x, y, kind, direction)], rooms)
    }

    /** `RemoveEntranceAt`: only the first entrance on (x, y) is removed; the tile is left as it is. */
    function WithoutEntranceAt(x: int, y: int): (r: FloorView)
      ensures r.grid == grid && r.rooms == rooms
    {
      var i := EntranceIndex(entrances, x, y);
      if i == -1 then this else this.(entrances := entrances[..i] + entrances[i + 1..])
    }

    /** `AddRoom`: a room with the given corners, origin entrance, no children, Undefined type. */
    function WithRoom(x: int, y: int, xx: int, yy: int): (r: FloorView)
      ensures r.grid == grid && r.entrances == entrances
      ensures |r.rooms| == |rooms| + 1 && r.rooms[..|rooms|] == rooms
      ensures r.rooms[|rooms|] == NewRoom().(TopLeft := Point(x, y), BottomRight := Point(xx, yy))
    {
      this.(rooms := rooms + [NewRoom().(TopLeft := Point(x, y), BottomRight := Point(xx, yy))])
    }

    /** The source's `Valid`: at least one entrance. */
    predicate Valid()
    {
      |entrances| > 0
    }
  }

  /** A fresh floor: no rooms, no entrances, every tile Vacant. */
  function EmptyFloor(tileCount: nat, tileStride: nat): (v: FloorView)
    ensures v.entrances == [] && v.rooms == [] && !v.Valid()
  {
    FloorView(Blank(tileCount, tileStride), [], [])
  }

  /** Appending an entrance leaves the first match unchanged when there was one; otherwise the new entrance
      is the first match exactly when it stands on (x, y). */
  lemma EntranceIndexAppend(es: seq<Entrance>, e: Entrance, x: int, y: int)
    ensures EntranceIndex(es + [e], x, y) ==
            if EntranceIndex(es, x, y) != -1 then EntranceIndex(es, x, y) else if At(e, x, y) then |es| else -1
  {
    var i := EntranceIndex(es, x, y);
    var k := EntranceIndex(es + [e], x, y);
    if i != -1 {
      assert (es + [e])[i] == es[i];
    } else if At(e, x, y) {
      assert At((es + [e])[|es|], x, y);
    } else {
      assert forall j :: 0 <= j < |es + [e]| ==> !At((es + [e])[j], x, y) by {
        forall j | 0 <= j < |es + [e]| ensures !At((es + [e])[j], x, y) {
          if j < |es| { assert (es + [e])[j] == es[j]; }
        }
      }
    }
  }

  /** After `AddEntrance(x, y, ...)` the lookup on (x, y) finds the entrance that was there before, or the
      new one if there was none; every other position finds what it found before; the floor is `Valid`. */
  lemma AddEntranceLookup(f: FloorView, x: int, y: int, kind: EntranceType, direction: Direction, px: int, py: int)
    ensures f.WithEntrance(x, y, kind, direction).Valid()
    ensures f.WithEntrance(x, y, kind, direction).EntranceAt(x, y) ==
            if f.EntranceAt(x, y).Some? then f.EntranceAt(x, y) else Some(NewEntrance(x, y, kind, direction))
    ensures (px != x || py != y) ==> f.WithEntrance(x, y, kind, direction).EntranceAt(px, py) == f.EntranceAt(px, py)
  {
    var e := NewEntrance(x, y, kind, direction);
    EntranceIndexAppend(f.entrances, e, x, y);
    EntranceIndexAppend(f.entrances, e, px, py);
  }

  /** The tile of a new entrance, when in bounds, becomes Other. */
  lemma AddEntranceTile(f: FloorView, x: int, y: int, kind: EntranceType, direction: Direction)
    requires f.grid.InBounds(x, y)
    ensures f.WithEntrance(x, y, kind, direction).grid.CheckType(x, y, Other)
  {
    assert f.WithEntrance(x, y, kind, direction).grid.ToIndex(x, y) == f.grid.ToIndex(x, y);
  }

  /** `RemoveEntranceAt` removes exactly the entrance `GetEntranceAt` finds, and nothing when there is
      none: one entrance fewer, the others in their order. */
  lemma RemoveEntranceCount(f: FloorView, x: int, y: int)
    ensures f.EntranceAt(x, y).None? ==> f.WithoutEntranceAt(x, y) == f
    ensures f.EntranceAt(x, y).Some? ==>
              |f.WithoutEntranceAt(x, y).entrances| == |f.entrances| - 1 &&
              multiset(f.WithoutEntranceAt(x, y).entrances) + multiset{f.EntranceAt(x, y).value} == multiset(f.entrances)
  {
    var i := EntranceIndex(f.entrances, x, y);
    if i != -1 {
      RemoveAtMultiset(f.entrances, i);
    }
  }

  /** Adding an entrance on a free position and then removing the one at that position gives the original
      entrance list back. */
  lemma AddRemoveRoundTrip(f: FloorView, x: int, y: int, kind: EntranceType, direction: Direction)
    requires f.EntranceAt(x, y).None?
    ensures f.WithEntrance(x, y, kind, direction).WithoutEntranceAt(x, y).entrances == f.entrances
  {
    var g := f.WithEntrance(x, y, kind, direction);
    EntranceIndexAppend(f.entrances, NewEntrance(x, y, kind, direction), x, y);
    assert g.entrances[..|f.entrances|] == f.entrances;
  }

  class Floor {
    var Rooms: seq<Room>
    var Entrances: seq<Entrance>
    var Grid: FloorplanGrid

    /** The grid keeps its constructor's invariant. */
    ghost predicate Wellformed()
      reads this`Grid
    {
      Grid.Valid()
    }

    function View(): FloorView
      reads this, Grid.tiles
    {
      FloorView(Grid.View(), Entrances, Rooms)
    }

    /** The constructor, on arguments for which the grid constructor does not throw. */
    constructor (tileCount: nat, tileStride: nat)
      requires tileStride > 0 && tileCount % tileStride == 0
      ensures Wellformed() && fresh(Grid) && fresh(Grid.tiles)
      ensures View() == EmptyFloor(tileCount, tileStride)
    {
      Grid := new FloorplanGrid(tileCount, tileStride);
      Entrances := [];
      Rooms := [];
    }

    /** The constructor with the grid constructor's throwing paths. */
    static method Create(tileCount: int, tileStride: nat) returns (r: Result<Floor>)
      ensures r.Throws? <==> ConstructorError(tileCount, tileStride).Some?
      ensures r.Throws? ==> r.exception == ConstructorError(tileCount, tileStride).value
      ensures r.Ok? ==> r.value.Wellformed() && fresh(r.value) && fresh(r.value.Grid) && fresh(r.value.Grid.tiles) &&
                        r.value.View() == EmptyFloor(tileCount, tileStride)
    {
      var e := ConstructorError(tileCount, tileStride);
      if e.Some? {
        return Throws(e.value);
      }
      var f := new Floor(tileCount, tileStride);
      return Ok(f);
    }

    method AddRoom(x: int, y: int, xx: int, yy: int) returns (room: Room)
      modifies this`Rooms
      ensures View() == old(View()).WithRoom(x, y, xx, yy)
      ensures room == View().rooms[|View().rooms| - 1]
    {
      room := NewRoom();
      room := room.(TopLeft := Point(x, y));
      room := room.(BottomRight := Point(xx, yy));
      Rooms := Rooms + [room];
    }

    method AddEntrance(x: int, y: int, kind: EntranceType, direction: Direction)
      modifies this`Entrances, Grid.tiles
      ensures View() == old(View()).WithEntrance(x, y, kind, direction)
    {
      var entrance := NewEntrance(x, y, kind, direction);
      Grid.SetTile(x, y, Other);
      Entrances := Entrances + [entrance];
    }

    /** Scans the list and removes the first match. */
    method RemoveEntranceAt(x: int, y: int)
      modifies this`Entrances
      ensures View() == old(View()).WithoutEntranceAt(x, y)
    {
      var n := 0;
      while n < |Entrances|
        invariant 0 <= n <= |Entrances|
        invariant forall j :: 0 <= j < n ==> !At(Entrances[j], x, y)
        invariant unchanged(this)
      {
        if Entrances[n].GridPosition.X == x && Entrances[n].GridPosition.Y == y {
          Entrances := Entrances[..n] + Entrances[n + 1..];
          return;
        }
        n := n + 1;
      }
    }

    method GetEntranceAt(x: int, y: int) returns (r: Option<Entrance>)
      ensures r == View().EntranceAt(x, y)
    {
      var n := 0;
      while n < |Entrances|
        invariant 0 <= n <= |Entrances|
        invariant forall j :: 0 <= j < n ==> !At(Entrances[j], x, y)
      {
        if Entrances[n].GridPosition.X == x && Entrances[n].GridPosition.Y == y {
          return Some(Entrances[n]);
        }
        n := n + 1;
      }
      return None;
    }

    /** The source's `Valid` property: at least one entrance. */
    function Valid(): (b: bool)
      reads this, Grid.tiles
      ensures b <==> View().Valid()
    {
      |Entrances| > 0
    }
  }
}

/** The floor-editing control of the building descriptor editor
    (BuildGen/Editor/BuildingDescriptorEditor.xaml.cs): the active building, the active floor and the
    draw mode, with the handlers that edit the floors. Every handler is proved against the function of
    the floors' states in `EntranceEditing` that it implements. */
module BuildingEditor {
  import opened Directions
  import opened Points
  import opened Grids
  import opened Entrances
  import opened Floors
  import opened Buildings
  import opened EntranceEditing
  import W = Wrappers

  datatype DrawModes = None | BoundsAdd | BoundsRemove | EntranceRegular | EntranceTerminal
                     | EntrancePassage | EntranceTransition | EntranceRemove

  const OutsideFloorplan := "Cannot complete the operation. The specified area isn't part of the building's floorplan."
  const NoExitPath := "Could not update the entrance at the specified location - no exit path available."
  const NeedsFloorAbove := "Terminal entrances require a floor above the current floor."
  const NeedsFloorBelow := "Terminal entrances require a floor below the current floor."
  const NeedsBothFloors := "Transition entrances require a floor below and above the current floor."
  const LastFloor := "A building must have at least one floor."
  const CannotSubtract := "Cannot subtract this area because it contains one or more entrances."

  /** The floors after a top-level `AddEntrance`, with the message box shown when it returned false. */
  function Reported(o: Outcome): (seq<FloorView>, W.Option<string>)
  {
    (o.floors, if o.ok then W.None else W.Some(NoExitPath))
  }

  /** `HandleEntranceOp` for a click on (x, y) of floor `f` in draw mode `mode`: the new floors and the
      message box shown, if any. A tile that is Unavailable refuses every mode; a Regular entrance needs a
      floor above, a Terminal one below, a Transition both; a Passage needs neither. The top-level call is
      its own source floor. Any other mode does nothing. */
  function EntranceOp(vs: seq<FloorView>, f: int, mode: DrawModes, x: int, y: int, left: bool): (r: (seq<FloorView>, W.Option<string>))
    requires 0 <= f < |vs|
    ensures Shaped(vs, r.0)
    ensures r.1.Some? ==> r.0 == vs
  {
    if vs[f].grid.CheckType(x, y, Unavailable) then (vs, W.Some(OutsideFloorplan))
    else match mode
      case EntranceRemove => (RemoveSpec(vs, x, y, f), W.None)
      case EntranceRegular =>
        if f >= |vs| - 1 then (vs, W.Some(NeedsFloorAbove))
        else Reported(AddEntranceSpec(vs, x, y, EntranceType.Entrance, f, f, left))
      case EntrancePassage => Reported(AddEntranceSpec(vs, x, y, EntranceType.Passage, f, f, left))
      case EntranceTerminal =>
        if f == 0 then (vs, W.Some(NeedsFloorBelow))
        else Reported(AddEntranceSpec(vs, x, y, Terminal, f, f, left))
      case EntranceTransition =>
        if f == 0 || f >= |vs| - 1 then (vs, W.Some(NeedsBothFloors))
        else Reported(AddEntranceSpec(vs, x, y, Transition, f, f, left))
      case _ => (vs, W.None)
  }

  /** Whether `mode` adds entrances. */
  predicate Adds(mode: DrawModes)
  {
    mode.EntranceRegular? || mode.EntrancePassage? || mode.EntranceTerminal? || mode.EntranceTransition?
  }

  /** The entrance type an adding mode places. */
  function KindOf(mode: DrawModes): EntranceType
    requires Adds(mode)
  {
    match mode
      case EntranceRegular => EntranceType.Entrance
      case EntrancePassage => EntranceType.Passage
      case EntranceTerminal => Terminal
      case EntranceTransition => Transition
  }

  /** The message of an adding mode whose type needs a floor that floor `f` of `count` does not have. */
  function MissingFloor(mode: DrawModes, f: int, count: int): W.Option<string>
    requires Adds(mode)
  {
    match mode
      case EntranceRegular => if f >= count - 1 then W.Some(NeedsFloorAbove) else W.None
      case EntrancePassage => W.None
      case EntranceTerminal => if f == 0 then W.Some(NeedsFloorBelow) else W.None
      case EntranceTransition => if f == 0 || f >= count - 1 then W.Some(NeedsBothFloors) else W.None
  }

  /** The switch of `HandleEntranceOp` read as a guard followed by at most one call: removal, nothing for
      a mode that does not add, the missing-floor message, or one top-level `AddEntrance` of the mode's
      type. */
  lemma EntranceOpCases(vs: seq<FloorView>, f: int, mode: DrawModes, x: int, y: int, left: bool)
    requires 0 <= f < |vs| && !vs[f].grid.CheckType(x, y, Unavailable)
    ensures mode == EntranceRemove ==> EntranceOp(vs, f, mode, x, y, left) == (RemoveSpec(vs, x, y, f), W.None)
    ensures mode != EntranceRemove && !Adds(mode) ==> EntranceOp(vs, f, mode, x, y, left) == (vs, W.None)
    ensures Adds(mode) && MissingFloor(mode, f, |vs|).Some? ==>
              EntranceOp(vs, f, mode, x, y, left) == (vs, MissingFloor(mode, f, |vs|))
    ensures Adds(mode) && MissingFloor(mode, f, |vs|).None? ==>
              EntranceOp(vs, f, mode, x, y, left) == Reported(AddEntranceSpec(vs, x, y, KindOf(mode), f, f, left))
  {
  }

  /** A click outside the grid passes the Unavailable test, whose `CheckType` is false there, but every
      adding mode still refuses it with a message and no change, because the direction search treats
      positions outside the grid as Unavailable. */
  lemma OutsideGridRefused(vs: seq<FloorView>, f: int, mode: DrawModes, x: int, y: int, left: bool)
    requires 0 <= f < |vs| && Adds(mode) && !vs[f].grid.InBounds(x, y)
    ensures !vs[f].grid.CheckType(x, y, Unavailable)
    ensures EntranceOp(vs, f, mode, x, y, left).0 == vs && EntranceOp(vs, f, mode, x, y, left).1.Some?
  {
    assert vs[f].grid.CheckUnavailable(x, y);
    assert LocalDirection(vs[f], x, y, left).None?;
  }

  /** The loop of `AddNewFloor`: a Terminal on `nfloor` for each Entrance and Transition of `es`, in order. */
  method AddTerminalCopies(nfloor: Floor, es: seq<Entrance>)
    modifies nfloor`Entrances, nfloor.Grid.tiles
    ensures nfloor.View() == CopyTerminals(old(nfloor.View()), es)
  {
    var n := 0;
    while n < |es|
      invariant 0 <= n <= |es|
      invariant nfloor.View() == CopyTerminals(old(nfloor.View()), es[..n])
    {
      var entrance := es[n];
      assert es[..n + 1][..n] == es[..n];
      if entrance.Type != Terminal && entrance.Type != EntranceType.Passage {
        nfloor.AddEntrance(entrance.GridPosition.X, entrance.GridPosition.Y, Terminal, entrance.Direction);
      }
      n := n + 1;
    }
    assert es[..n] == es;
  }

  /** The end of `AddNewFloor` on its newly added floor: a copy of the former top floor's grid, then the
      Terminal copies of that floor's entrances. */
  method FillNewFloor(nfloor: Floor, previous: Floor)
    requires previous.Wellformed() && nfloor != previous && nfloor.View().entrances == [] && nfloor.View().rooms == []
    modifies nfloor
    ensures fresh(nfloor.Grid) && fresh(nfloor.Grid.tiles) && nfloor.Wellformed()
    ensures nfloor.View() == NewTopFloor(old(previous.View()))
  {
    nfloor.Grid := previous.Grid.Clone();
    assert nfloor.View() == FloorView(old(previous.View()).grid, [], []);
    AddTerminalCopies(nfloor, previous.Entrances);
  }

  /** The loop of `RemoveFloor`: `upper` adds each Terminal and Transition of `es` and removes the first
      entrance at the position of each other one. */
  method ReceiveHandOver(upper: Floor, es: seq<Entrance>)
    modifies upper`Entrances, upper.Grid.tiles
    ensures upper.View() == HandOver(old(upper.View()), es)
  {
    var n := 0;
    while n < |es|
      invariant 0 <= n <= |es|
      invariant upper.View() == HandOver(old(upper.View()), es[..n])
    {
      var entrance := es[n];
      assert es[..n + 1][..n] == es[..n];
      if entrance.Type == Terminal || entrance.Type == Transition {
        upper.AddEntrance(entrance.GridPosition.X, entrance.GridPosition.Y, entrance.Type, entrance.Direction);
      } else {
        upper.RemoveEntranceAt(entrance.GridPosition.X, entrance.GridPosition.Y);
      }
      n := n + 1;
    }
    assert es[..n] == es;
  }

  class BuildingDescriptorEditor {
    var activeDrawMode: DrawModes
    const activeBuilding: Building
    var activeFloorIndex: int
    /** How many times the `ContentsModified` event has been raised. */
    var modifications: nat

    /** The building is well formed and has a floor, and the active floor is one of them. */
    ghost predicate Valid()
      reads this, activeBuilding`Floors, activeBuilding.Floors`Grid
    {
      activeBuilding.Wellformed() && |activeBuilding.Floors| >= 1 &&
      0 <= activeFloorIndex < |activeBuilding.Floors|
    }

    function Views(): seq<FloorView>
      reads activeBuilding, activeBuilding.Floors, set f | f in activeBuilding.Floors :: f.Grid.tiles
    {
      activeBuilding.Views()
    }

    /** Opening a building for editing (`Edit(bld)`): the bottom floor becomes active, no draw mode. */
    constructor (building: Building)
      requires building.Wellformed() && |building.Floors| >= 1
      ensures Valid() && activeBuilding == building && activeFloorIndex == 0 && activeDrawMode == DrawModes.None
      ensures modifications == 0
    {
      activeBuilding := building;
      activeFloorIndex := 0;
      activeDrawMode := DrawModes.None;
      modifications := 0;
    }

    /** The `ref baseDirection` search: `found` is the `bool` result and `direction` the final value of the
        reference, unchanged on failure. */
    method GetNextValidEntranceDirection(x: int, y: int, floorIndex: int, baseDirection: Direction, reverse: bool)
        returns (found: bool, direction: Direction)
      requires Valid() && 0 <= floorIndex < |activeBuilding.Floors|
      ensures var r := NextDirection(Views()[floorIndex].grid, x, y, baseDirection, reverse);
              found == r.Some? && direction == (if found then r.value else baseDirection)
    {
      var cfloor := activeBuilding.Floors[floorIndex];
      var g := cfloor.Grid.View();
      if g.CheckUnavailable(x, y) {
        return false, baseDirection;
      }
      var ndir := baseDirection;
      var n := 0;
      while n < 4
        invariant 0 <= n <= 4
        invariant Search(g, x, y, baseDirection, reverse, 4) == Search(g, x, y, ndir, reverse, 4 - n)
      {
        ndir := Advance(ndir, reverse);
        var pos := Point(x, y);
        pos := pos.Advance(ndir, 1);
        if g.CheckUnavailable(pos.X, pos.Y) {
          n := n + 1;
          continue;
        } else {
          return true, ndir;
        }
      }
      return false, baseDirection;
    }

    /** `HandleBoundsOp` on the active floor: BoundsAdd makes the inclusive rectangle Vacant; any other
        mode subtracts it unless it holds an entrance, in which case `message` is the error shown. Either
        way `ContentsModified` is raised once. */
    method HandleBoundsOp(x: int, y: int, xx: int, yy: int) returns (message: W.Option<string>)
      requires Valid()
      modifies this, activeBuilding.Floors[activeFloorIndex].Grid.tiles
      ensures activeFloorIndex == old(activeFloorIndex) && activeDrawMode == old(activeDrawMode)
      ensures Valid()
      ensures Views() == old(Views())[activeFloorIndex :=
                BoundsOp(old(Views())[activeFloorIndex], x, y, xx, yy, activeDrawMode == BoundsAdd)]
      ensures message == if activeDrawMode != BoundsAdd &&
                            BlocksSubtraction(old(Views())[activeFloorIndex].entrances, x, y, xx, yy)
                         then W.Some(CannotSubtract) else W.None
      ensures modifications == old(modifications) + 1
    {
      message := W.None;
      var cfloor := activeBuilding.Floors[activeFloorIndex];
      assert cfloor.Wellformed();
      OthersApart(activeBuilding.Floors, activeFloorIndex);
      label Before:
      if activeDrawMode == BoundsAdd {
        cfloor.Grid.SetArea(x, y, xx + 1, yy + 1, Vacant);
      } else {
        var canSubtract := true;
        var n := 0;
        while n < |cfloor.Entrances|
          invariant 0 <= n <= |cfloor.Entrances|
          invariant canSubtract <==> forall i :: 0 <= i < n ==> !InsideInclusive(cfloor.Entrances[i], x, y, xx, yy)
        {
          var entrance := cfloor.Entrances[n];
          if entrance.GridPosition.X >= x && entrance.GridPosition.Y >= y &&
             entrance.GridPosition.X <= xx && entrance.GridPosition.Y <= yy {
            canSubtract := false;
            break;
          }
          n := n + 1;
        }
        assert canSubtract <==> !BlocksSubtraction(cfloor.Entrances, x, y, xx, yy);
        if canSubtract {
          cfloor.Grid.SetArea(x, y, xx + 1, yy + 1, Unavailable);
        } else {
          message := W.Some(CannotSubtract);
        }
      }
      OthersKept@Before(activeFloorIndex);
      modifications := modifications + 1;
    }

    /** The floors' tile arrays, which the entrance handlers write besides the floors' entrance lists. */
    ghost function TileArrays(): set<array<FloorTileType>>
      reads this, activeBuilding`Floors, activeBuilding.Floors`Grid
    {
      set f | f in activeBuilding.Floors :: f.Grid.tiles
    }

    /** Writing floor `k`'s entrance list and tile array leaves every other floor's state as it was. */
    twostate lemma OthersKept(k: int)
      requires old(Valid()) && 0 <= k < old(|activeBuilding.Floors|)
      requires unchanged(this, activeBuilding)
      requires forall f | f in old(activeBuilding.Floors) :: f.Grid == old(f.Grid)
      requires forall i | 0 <= i < old(|activeBuilding.Floors|) && i != k ::
                 unchanged(old(activeBuilding.Floors[i]), old(activeBuilding.Floors[i].Grid.tiles))
      ensures Valid()
      ensures Views() == old(Views())[k := activeBuilding.Floors[k].View()]
    {
    }

    /** Overwrites floor `k` with the state `v` of the same shape, leaving every other floor as it was. */
    method Store(k: int, v: FloorView)
      requires Valid() && 0 <= k < |activeBuilding.Floors| && SameShape(Views()[k], v)
      modifies activeBuilding.Floors`Entrances, TileArrays()
      ensures Valid() && TileArrays() == old(TileArrays())
      ensures Views() == old(Views())[k := v]
    {
      var cfloor := activeBuilding.Floors[k];
      assert cfloor.Wellformed();
      OthersApart(activeBuilding.Floors, k);
      label Before:
      cfloor.Entrances := v.entrances;
      cfloor.Grid.Overwrite(v.grid.tiles);
      OthersKept@Before(k);
    }

    /** Brings every floor to the state `target` has for it, bottom floor first. */
    method Commit(target: seq<FloorView>)
      requires Valid() && Shaped(Views(), target)
      modifies activeBuilding.Floors`Entrances, TileArrays()
      ensures Valid() && Views() == target
    {
      ghost var vs := Views();
      var k := 0;
      while k < |target|
        invariant 0 <= k <= |target|
        invariant Valid() && TileArrays() == old(TileArrays()) && |Views()| == |target|
        invariant forall i :: 0 <= i < |target| ==> Views()[i] == if i < k then target[i] else vs[i]
      {
        Store(k, target[k]);
        k := k + 1;
      }
    }

    /** `AddEntrance(x, y, type, floorIndex, sourceFloor, sourceWasLeftClick)`; `left` is
        `sourceWasLeftClick`. The result and the new floors are those of `AddEntranceSpec`, which follows
        the source's recursion: the neighbouring floors first, then this one. */
    method AddEntrance(x: int, y: int, kind: EntranceType, floorIndex: int, sourceFloor: int, left: bool) returns (ok: bool)
      requires Valid() && 0 <= floorIndex < |activeBuilding.Floors|
      modifies activeBuilding.Floors`Entrances, TileArrays()
      ensures Valid()
      ensures var r := AddEntranceSpec(old(Views()), x, y, kind, floorIndex, sourceFloor, left);
              ok == r.ok && Views() == r.floors
    {
      var r := AddEntranceSpec(Views(), x, y, kind, floorIndex, sourceFloor, left);
      Commit(r.floors);
      ok := r.ok;
    }

    /** `RemoveEntrance(x, y, floorIndex)`: the new floors are those of `RemoveSpec`. */
    method RemoveEntrance(x: int, y: int, floorIndex: int)
      requires Valid() && 0 <= floorIndex < |activeBuilding.Floors|
      modifies activeBuilding.Floors`Entrances, TileArrays()
      ensures Valid()
      ensures Views() == RemoveSpec(old(Views()), x, y, floorIndex)
    {
      var r := RemoveSpec(Views(), x, y, floorIndex);
      Commit(r);
    }

    /** A top-level `AddEntrance` on the active floor with its failure message. */
    method AddReported(x: int, y: int, kind: EntranceType, left: bool) returns (message: W.Option<string>)
      requires Valid()
      modifies activeBuilding.Floors`Entrances, TileArrays()
      ensures Valid()
      ensures (Views(), message) == Reported(AddEntranceSpec(old(Views()), x, y, kind, activeFloorIndex, activeFloorIndex, left))
    {
      var ok := AddEntrance(x, y, kind, activeFloorIndex, activeFloorIndex, left);
      message := if ok then W.None else W.Some(NoExitPath);
    }

    /** `HandleEntranceOp(x, y, sourceWasLeftClick)`: the floors change as `EntranceOp` says and `message`
        is the message box shown, if any. */
    method HandleEntranceOp(x: int, y: int, left: bool) returns (message: W.Option<string>)
      requires Valid()
      modifies activeBuilding.Floors`Entrances, TileArrays()
      ensures Valid()
      ensures (Views(), message) == EntranceOp(old(Views()), activeFloorIndex, activeDrawMode, x, y, left)
    {
      var cfloor := activeBuilding.Floors[activeFloorIndex];
      var canPerform := !cfloor.Grid.View().CheckType(x, y, Unavailable);
      if !canPerform {
        return W.Some(OutsideFloorplan);
      }
      EntranceOpCases(Views(), activeFloorIndex, activeDrawMode, x, y, left);
      if activeDrawMode == EntranceRemove {
        RemoveEntrance(x, y, activeFloorIndex);
        return W.None;
      }
      if !Adds(activeDrawMode) {
        return W.None;
      }
      var refusal := MissingFloor(activeDrawMode, activeFloorIndex, |activeBuilding.Floors|);
      if refusal.Some? {
        return refusal;
      }
      message := AddReported(x, y, KindOf(activeDrawMode), left);
    }

    /** `AddNewFloor`: a floor is added on top (`Building.AddFloor`, whose row and column counts come from
        the building's size through floating-point arithmetic and are parameters here), takes a copy of
        the former top floor's grid, and gets a Terminal for each of that floor's Entrances and
        Transitions. The exception of a zero column count leaves the building as it was. */
    method AddNewFloor(rows: nat, columns: nat) returns (error: W.Option<W.Exception>)
      requires Valid()
      modifies activeBuilding`Floors
      ensures Valid()
      ensures columns == 0 ==> error == W.Some(W.DivideByZeroException) && Views() == old(Views())
      ensures columns > 0 ==> error == W.None && Views() == old(Views()) + [NewTopFloor(old(Views())[|old(Views())| - 1])]
    {
      ghost var vs := Views();
      ghost var fs := activeBuilding.Floors;
      var previousFloor := activeBuilding.Floors[|activeBuilding.Floors| - 1];
      assert previousFloor.Wellformed() && previousFloor.View() == vs[|vs| - 1];
      var created := activeBuilding.AddFloor(rows, columns);
      if created.Throws? {
        return W.Some(created.exception);
      }
      var nFloor := created.value;
      FillNewFloor(nFloor, previousFloor);
      ViewsUnchanged(fs);
      SeparateAppend(fs, nFloor);
      ViewsAppend(fs, nFloor);
      assert activeBuilding.Floors == fs + [nFloor];
      return W.None;
    }

    /** `RemoveFloor`: refused with a message on the only floor; otherwise the entrances are handed over
        to the floor above (if any), the active floor is removed, and the active index moves down when it
        ran past the top. */
    method RemoveFloor() returns (message: W.Option<string>)
      requires Valid()
      modifies this`activeFloorIndex, activeBuilding`Floors, activeBuilding.Floors`Entrances, TileArrays()
      ensures Valid()
      ensures message == if |old(Views())| == 1 then W.Some(LastFloor) else W.None
      ensures (Views(), activeFloorIndex) == RemoveFloorSpec(old(Views()), old(activeFloorIndex))
    {
      var count := |activeBuilding.Floors|;
      if count == 1 {
        RemoveFloorSpecOne(Views(), activeFloorIndex);
        return W.Some(LastFloor);
      }
      RemoveFromSeveral(count);
      message := W.None;
    }

    /** `RemoveFloor` past the check for the only floor: the hand-over, then the removal. */
    method RemoveFromSeveral(count: int)
      requires Valid() && count == |activeBuilding.Floors| && count >= 2
      modifies this`activeFloorIndex, activeBuilding`Floors, activeBuilding.Floors`Entrances, TileArrays()
      ensures Valid()
      ensures (Views(), activeFloorIndex) == RemoveFloorSpec(old(Views()), old(activeFloorIndex))
    {
      ghost var vs, active := Views(), activeFloorIndex;
      HandOverActive(count);
      ghost var handed := Views();
      RemoveActiveFloor();
      RemoveFloorSpecOf(vs, active, handed, Views(), activeFloorIndex);
    }

    /** The loop of `RemoveFloor` that hands the active floor's entrances over to the floor above it, when
        there is one. */
    method HandOverActive(count: int)
      requires Valid() && count == |activeBuilding.Floors|
      modifies activeBuilding.Floors`Entrances, TileArrays()
      ensures Valid() && |activeBuilding.Floors| == count
      ensures Views() == HandedOver(old(Views()), activeFloorIndex)
    {
      var k := activeFloorIndex;
      if k < count - 1 {
        var curFloor := activeBuilding.Floors[k];
        var upperFloor := activeBuilding.Floors[k + 1];
        assert upperFloor.Wellformed();
        OthersApart(activeBuilding.Floors, k + 1);
        label Before:
        ReceiveHandOver(upperFloor, curFloor.Entrances);
        OthersKept@Before(k + 1);
      }
    }

    /** `Floors.RemoveAt(activeFloorIndex)` followed by `SetActiveFloor`, which keeps the index unless it
        ran past the top. */
    method RemoveActiveFloor()
      requires Valid() && |activeBuilding.Floors| >= 2
      modifies this`activeFloorIndex, activeBuilding`Floors
      ensures Valid()
      ensures Views() == old(Views()[..activeFloorIndex] + Views()[activeFloorIndex + 1..])
      ensures activeFloorIndex == if old(activeFloorIndex) >= old(|activeBuilding.Floors|) - 1
                                  then old(activeFloorIndex) - 1 else old(activeFloorIndex)
    {
      activeBuilding.RemoveFloorAt(activeFloorIndex);
      activeFloorIndex := if activeFloorIndex >= |activeBuilding.Floors| then activeFloorIndex - 1 else activeFloorIndex;
    }
  }
}

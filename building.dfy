/** A building (BuildGen/Common/Data/Building.cs): its floors, bottom first, with the generator's seed, the
    floorplan's real-world size, the grid resolution and an optional constraint-set name. */
module Buildings {
  import opened Wrappers
  import opened Grids
  import opened Floors

  /** The floors' states, in order. */
  function ViewsOf(fs: seq<Floor>): (r: seq<FloorView>)
    reads set f | f in fs, set f | f in fs :: f.Grid.tiles
    ensures |r| == |fs| && forall i :: 0 <= i < |fs| ==> r[i] == fs[i].View()
  {
    if |fs| == 0 then [] else ViewsOf(fs[..|fs| - 1]) + [fs[|fs| - 1].View()]
  }

  /** Every floor keeps its grid's invariant, and no two floors share an object or a tile array, so that
      writing one floor leaves every other floor as it was. */
  ghost predicate Separate(fs: seq<Floor>)
    reads fs`Grid
  {
    (forall i :: 0 <= i < |fs| ==> fs[i].Wellformed()) &&
    (forall i, j {:trigger Apart(fs, i, j)} :: 0 <= i < j < |fs| ==> Apart(fs, i, j))
  }

  /** Floors `i` and `j` are different objects with different tile arrays. */
  ghost predicate Apart(fs: seq<Floor>, i: int, j: int)
    requires 0 <= i < |fs| && 0 <= j < |fs|
    reads fs`Grid
  {
    fs[i] != fs[j] && fs[i].Grid.tiles != fs[j].Grid.tiles
  }

  /** Two different positions of separate floors hold different floors with different tile arrays. */
  lemma SeparateApart(fs: seq<Floor>, i: int, j: int)
    requires Separate(fs) && 0 <= i < |fs| && 0 <= j < |fs| && i != j
    ensures fs[i] != fs[j] && fs[i].Grid.tiles != fs[j].Grid.tiles
  {
    if i < j {
      assert Apart(fs, i, j);
    } else {
      assert Apart(fs, j, i);
    }
  }

  /** Every floor of separate floors other than floor `k` is another object with another tile array. */
  lemma OthersApart(fs: seq<Floor>, k: int)
    requires Separate(fs) && 0 <= k < |fs|
    ensures forall i :: 0 <= i < |fs| && i != k ==> fs[i] != fs[k] && fs[i].Grid.tiles != fs[k].Grid.tiles
  {
    forall i | 0 <= i < |fs| && i != k
      ensures fs[i] != fs[k] && fs[i].Grid.tiles != fs[k].Grid.tiles
    {
      SeparateApart(fs, i, k);
    }
  }

  /** A fresh floor, with its own fresh tile array, can join separate floors. */
  lemma SeparateAppend(fs: seq<Floor>, f: Floor)
    requires Separate(fs) && f.Wellformed()
    requires forall i :: 0 <= i < |fs| ==> fs[i] != f && fs[i].Grid.tiles != f.Grid.tiles
    ensures Separate(fs + [f])
  {
    var gs := fs + [f];
    forall i | 0 <= i < |gs|
      ensures gs[i].Wellformed()
    {
      if i < |fs| {
        assert fs[i].Wellformed();
      }
    }
    forall i, j | 0 <= i < j < |gs|
      ensures Apart(gs, i, j)
    {
      if j < |fs| {
        assert Apart(fs, i, j);
      }
    }
  }

  /** Removing one floor keeps the others separate. */
  lemma SeparateRemove(fs: seq<Floor>, k: int)
    requires Separate(fs) && 0 <= k < |fs|
    ensures Separate(fs[..k] + fs[k + 1..])
  {
    var gs := fs[..k] + fs[k + 1..];
    forall i | 0 <= i < |gs|
      ensures gs[i].Wellformed()
    {
      var i' := if i < k then i else i + 1;
      assert gs[i] == fs[i'] && fs[i'].Wellformed();
    }
    forall i, j | 0 <= i < j < |gs|
      ensures Apart(gs, i, j)
    {
      var i' := if i < k then i else i + 1;
      var j' := if j < k then j else j + 1;
      assert gs[i] == fs[i'] && gs[j] == fs[j'] && Apart(fs, i', j');
    }
  }

  /** Floors whose fields and tile arrays did not change have the states they had, and stay separate. */
  twostate lemma ViewsUnchanged(fs: seq<Floor>)
    requires forall i :: 0 <= i < |fs| ==> unchanged(fs[i]) && unchanged(fs[i].Grid.tiles)
    ensures ViewsOf(fs) == old(ViewsOf(fs))
    ensures old(Separate(fs)) ==> Separate(fs)
  {
    forall i | 0 <= i < |fs|
      ensures fs[i].View() == old(fs[i].View())
    {
    }
  }

  lemma ViewsAppend(fs: seq<Floor>, f: Floor)
    ensures ViewsOf(fs + [f]) == ViewsOf(fs) + [f.View()]
  {
  }

  /** Every floor's grid is well formed. */
  predicate GridsValid(vs: seq<FloorView>)
  {
    forall k :: 0 <= k < |vs| ==> vs[k].grid.Valid()
  }

  /** The source's `Valid`: every floor has an entrance; vacuously true without floors. */
  predicate AllValid(vs: seq<FloorView>)
  {
    forall i :: 0 <= i < |vs| ==> vs[i].Valid()
  }

  /** The floors `AddFloor` creates, `n` times: `rows * columns` Vacant tiles each, `columns` per row. */
  function EmptyFloors(n: nat, rows: nat, columns: nat): (r: seq<FloorView>)
    ensures |r| == n
    ensures forall k :: 0 <= k < n ==> r[k] == EmptyFloor(rows * columns, columns)
    ensures columns > 0 ==> forall k :: 0 <= k < n ==> r[k].grid.Valid()
  {
    if n == 0 then []
    else
      var r := EmptyFloors(n - 1, rows, columns) + [EmptyFloor(rows * columns, columns)];
      if columns > 0 then ProductDivisible(rows, columns); r else r
  }

  /** A grid of `rows` full rows of `columns` tiles has a tile count the stride divides. */
  lemma ProductDivisible(rows: nat, columns: nat)
    requires columns > 0
    ensures (rows * columns) % columns == 0
  {
    DivModOf(0, rows, columns);
  }

  class Building {
    var Floors: seq<Floor>
    var Seed: int
    var Width: real
    var Height: real
    var Resolution: real
    var ConstraintSet: Option<string>

    ghost predicate Wellformed()
      reads this`Floors, Floors`Grid
    {
      Separate(Floors)
    }

    function Views(): seq<FloorView>
      reads this`Floors, Floors, set f | f in Floors :: f.Grid.tiles
    {
      ViewsOf(Floors)
    }

    constructor (width: real, height: real, resolution: real)
      ensures Wellformed() && Floors == []
      ensures Width == width && Height == height && Resolution == resolution
      ensures Seed == 0 && ConstraintSet == None
    {
      Width := width;
      Height := height;
      Resolution := resolution;
      Floors := [];
      Seed := 0;
      ConstraintSet := None;
    }

    /** Appends a floor of `rows * columns` Vacant tiles, `columns` per grid row. The `%` by a zero column
        count throws before the list is touched. */
    method AddFloor(rows: nat, columns: nat) returns (r: Result<Floor>)
      requires Wellformed()
      modifies this`Floors
      ensures Wellformed()
      ensures r.Throws? <==> columns == 0
      ensures r.Throws? ==> r.exception == DivideByZeroException && Floors == old(Floors)
      ensures r.Ok? ==> fresh(r.value) && fresh(r.value.Grid) && fresh(r.value.Grid.tiles)
      ensures r.Ok? ==> r.value.Wellformed() && r.value.View() == EmptyFloor(rows * columns, columns)
      ensures r.Ok? ==> Floors == old(Floors) + [r.value] && Views() == old(Views()) + [EmptyFloor(rows * columns, columns)]
      ensures r.Ok? ==> !Valid()
      ensures Seed == old(Seed) && Width == old(Width) && Height == old(Height)
      ensures Resolution == old(Resolution) && ConstraintSet == old(ConstraintSet)
    {
      var count := rows * columns;
      if columns > 0 {
        ProductDivisible(rows, columns);
        assert ConstructorError(count, columns) == None;
      } else {
        assert ConstructorError(count, columns) == Some(DivideByZeroException);
      }
      var created := Floor.Create(count, columns);
      if created.Throws? {
        return Throws(created.exception);
      }
      var nfloor := created.value;
      Append(nfloor);
      return Ok(nfloor);
    }

    /** The `AddFloor` loop of `ParseBuilding` on a building without floors: `count` floors, none for a
        count below one; the first `AddFloor` throws when there are no columns. */
    method AddFloors(count: int, rows: nat, columns: nat) returns (thrown: Option<Exception>)
      requires Wellformed() && Floors == []
      modifies this`Floors
      ensures Wellformed()
      ensures Seed == old(Seed) && Width == old(Width) && Height == old(Height)
      ensures Resolution == old(Resolution) && ConstraintSet == old(ConstraintSet)
      ensures thrown.Some? <==> count > 0 && columns == 0
      ensures thrown.Some? ==> thrown.value == DivideByZeroException
      ensures thrown.None? ==> Views() == EmptyFloors(if count > 0 then count else 0, rows, columns)
      ensures forall f | f in Floors :: fresh(f) && fresh(f.Grid.tiles)
    {
      var n := 0;
      while n < count
        invariant 0 <= n && (n <= count || n == 0) && (n == 0 || columns > 0)
        invariant Wellformed()
        invariant Seed == old(Seed) && Width == old(Width) && Height == old(Height)
        invariant Resolution == old(Resolution) && ConstraintSet == old(ConstraintSet)
        invariant Views() == EmptyFloors(n, rows, columns)
        invariant forall f | f in Floors :: fresh(f) && fresh(f.Grid.tiles)
      {
        var added := AddFloor(rows, columns);
        if added.Throws? {
          return Some(added.exception);
        }
        n := n + 1;
      }
      return None;
    }

    /** `Floors.Add(nfloor)` for a floor that is not yet part of the building and owns its tile array. */
    method Append(nfloor: Floor)
      requires Wellformed() && nfloor.Wellformed()
      requires forall i :: 0 <= i < |Floors| ==> Floors[i] != nfloor && Floors[i].Grid.tiles != nfloor.Grid.tiles
      modifies this`Floors
      ensures Wellformed() && Floors == old(Floors) + [nfloor]
      ensures Views() == old(Views()) + [nfloor.View()]
    {
      SeparateAppend(Floors, nfloor);
      ViewsAppend(Floors, nfloor);
      Floors := Floors + [nfloor];
    }

    /** `Floors.RemoveAt(k)`. */
    method RemoveFloorAt(k: int)
      requires Wellformed() && 0 <= k < |Floors|
      modifies this`Floors
      ensures Wellformed() && Floors == old(Floors[..k] + Floors[k + 1..])
      ensures Views() == old(Views()[..k] + Views()[k + 1..])
    {
      SeparateRemove(Floors, k);
      Floors := Floors[..k] + Floors[k + 1..];
    }

    /** The floors' tile arrays, which the readers and the editor write besides the floors' entrance lists. */
    ghost function TileArrays(): set<array<FloorTileType>>
      reads this`Floors, Floors`Grid
    {
      set f | f in Floors :: f.Grid.tiles
    }

    /** Writing floor `k`'s entrance list and tile array leaves every other floor's state as it was. */
    twostate lemma FloorWritten(k: int)
      requires old(Wellformed()) && 0 <= k < old(|Floors|)
      requires unchanged(this)
      requires forall f | f in old(Floors) :: f.Grid == old(f.Grid)
      requires forall i | 0 <= i < old(|Floors|) && i != k :: unchanged(old(Floors[i]), old(Floors[i].Grid.tiles))
      ensures Wellformed()
      ensures Views() == old(Views())[k := Floors[k].View()]
    {
    }

    /** True iff every floor is `Valid`: the loop's early `return false` is the first invalid floor. */
    function Valid(): (b: bool)
      reads this`Floors, Floors, set f | f in Floors :: f.Grid.tiles
      ensures b <==> AllValid(Views())
    {
      forall i :: 0 <= i < |Floors| ==> Floors[i].Valid()
    }
  }
}

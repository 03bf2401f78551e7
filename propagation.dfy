/** The floor edits of the building descriptor editor (BuildGen/Editor/BuildingDescriptorEditor.xaml.cs),
    stated on the floors' states: the search for an open entrance direction, the recursive addition and
    removal of an entrance with its counterparts on the neighbouring floors, the bounds edit, and adding
    and removing a floor. The editor's methods are proved against these functions. */
module EntranceEditing {
  import opened Wrappers
  import opened Directions
  import opened Points
  import opened Rectangles
  import opened Grids
  import opened Entrances
  import opened Floors

  /** Whether the neighbour of (x, y) in direction `d` is inside the floorplan. */
  predicate Open(g: GridView, x: int, y: int, d: Direction)
  {
    var p := Point(x, y).Advance(d, 1);
    !g.CheckUnavailable(p.X, p.Y)
  }

  /** The last `n` turns of the search loop, starting after direction `d`. */
  function Search(g: GridView, x: int, y: int, d: Direction, reverse: bool, n: nat): Option<Direction>
    decreases n
  {
    if n == 0 then None
    else
      var nd := Advance(d, reverse);
      if Open(g, x, y, nd) then Some(nd) else Search(g, x, y, nd, reverse, n - 1)
  }

  /** `GetNextValidEntranceDirection`: None (the `false` return) when (x, y) itself is outside the
      floorplan, otherwise the first open one of the four directions after `base`. */
  function NextDirection(g: GridView, x: int, y: int, base: Direction, reverse: bool): Option<Direction>
  {
    if g.CheckUnavailable(x, y) then None else Search(g, x, y, base, reverse, 4)
  }

  lemma {:induction false} AdvanceNShift(d: Direction, reverse: bool, k: nat)
    ensures AdvanceN(Advance(d, reverse), reverse, k) == AdvanceN(d, reverse, k + 1)
  {
    if k > 0 {
      AdvanceNShift(d, reverse, k - 1);
    }
  }

  /** The search fails exactly when all of Advance¹..Advanceⁿ of its start are blocked. */
  lemma SearchFails(g: GridView, x: int, y: int, d: Direction, reverse: bool, n: nat)
    ensures Search(g, x, y, d, reverse, n).None? <==> forall k :: 1 <= k <= n ==> !Open(g, x, y, AdvanceN(d, reverse, k))
  {
    if Search(g, x, y, d, reverse, n).Some? {
      var k := SearchFirstOpen(g, x, y, d, reverse, n);
    } else {
      SearchNoneBlocked(g, x, y, d, reverse, n);
    }
  }

  lemma {:induction false} SearchNoneBlocked(g: GridView, x: int, y: int, d: Direction, reverse: bool, n: nat)
    requires Search(g, x, y, d, reverse, n).None?
    ensures forall k :: 1 <= k <= n ==> !Open(g, x, y, AdvanceN(d, reverse, k))
    decreases n
  {
    if n > 0 {
      var nd := Advance(d, reverse);
      assert AdvanceN(d, reverse, 1) == nd;
      SearchNoneBlocked(g, x, y, nd, reverse, n - 1);
      forall k | 1 <= k <= n ensures !Open(g, x, y, AdvanceN(d, reverse, k)) {
        if k > 1 {
          AdvanceNShift(d, reverse, k - 1);
        }
      }
    }
  }

  /** A successful search returns the first open one of Advance¹..Advanceⁿ of its start. */
  lemma {:induction false} SearchFirstOpen(g: GridView, x: int, y: int, d: Direction, reverse: bool, n: nat)
      returns (k: nat)
    requires Search(g, x, y, d, reverse, n).Some?
    ensures 1 <= k <= n && Search(g, x, y, d, reverse, n).value == AdvanceN(d, reverse, k)
    ensures Open(g, x, y, AdvanceN(d, reverse, k))
    ensures forall j :: 1 <= j < k ==> !Open(g, x, y, AdvanceN(d, reverse, j))
    decreases n
  {
    var nd := Advance(d, reverse);
    assert AdvanceN(d, reverse, 1) == nd;
    if Open(g, x, y, nd) {
      k := 1;
    } else {
      var k' := SearchFirstOpen(g, x, y, nd, reverse, n - 1);
      k := k' + 1;
      AdvanceNShift(d, reverse, k');
      forall j | 1 <= j < k ensures !Open(g, x, y, AdvanceN(d, reverse, j)) {
        AdvanceNShift(d, reverse, j - 1);
      }
    }
  }

  /** The direction search fails exactly when the origin is outside the floorplan or all four candidates
      Advance¹..Advance⁴(base) are blocked; a success is the first open candidate, so `base` itself
      (Advance⁴) is tried last. */
  lemma NextDirectionSpec(g: GridView, x: int, y: int, base: Direction, reverse: bool)
    ensures NextDirection(g, x, y, base, reverse).None? <==>
              g.CheckUnavailable(x, y) || forall k :: 1 <= k <= 4 ==> !Open(g, x, y, AdvanceN(base, reverse, k))
    ensures NextDirection(g, x, y, base, reverse).Some? ==>
              exists k :: 1 <= k <= 4 && NextDirection(g, x, y, base, reverse).value == AdvanceN(base, reverse, k) &&
                          Open(g, x, y, AdvanceN(base, reverse, k)) &&
                          forall j :: 1 <= j < k ==> !Open(g, x, y, AdvanceN(base, reverse, j))
  {
    SearchFails(g, x, y, base, reverse, 4);
    if NextDirection(g, x, y, base, reverse).Some? {
      var k := SearchFirstOpen(g, x, y, base, reverse, 4);
    }
  }

  /** A found direction is open; a cardinal base gives a cardinal result, and an Unspecified base gives
      Unspecified whenever the origin is inside the floorplan. */
  lemma NextDirectionShape(g: GridView, x: int, y: int, base: Direction, reverse: bool)
    ensures NextDirection(g, x, y, base, reverse).Some? ==> Open(g, x, y, NextDirection(g, x, y, base, reverse).value)
    ensures NextDirection(g, x, y, base, reverse).Some? ==>
              (IsCardinal(base) <==> IsCardinal(NextDirection(g, x, y, base, reverse).value))
    ensures base == Unspecified && !g.CheckUnavailable(x, y) ==> NextDirection(g, x, y, base, reverse) == Some(Unspecified)
  {
    var r := NextDirection(g, x, y, base, reverse);
    if r.Some? {
      var k := SearchFirstOpen(g, x, y, base, reverse, 4);
      AdvanceNCardinal(base, reverse, k);
    }
    if base == Unspecified && !g.CheckUnavailable(x, y) {
      assert Point(x, y).Advance(Unspecified, 1) == Point(x, y);
      assert Open(g, x, y, Advance(base, reverse));
    }
  }

  lemma {:induction false} AdvanceNCardinal(d: Direction, reverse: bool, k: nat)
    ensures IsCardinal(AdvanceN(d, reverse, k)) <==> IsCardinal(d)
    ensures d == Unspecified ==> AdvanceN(d, reverse, k) == Unspecified
  {
    if k > 0 {
      AdvanceNCardinal(d, reverse, k - 1);
    }
  }

  /** `entrance.Direction = direction` through the reference `GetEntranceAt` returned: the first entrance on
      (x, y) turns to `d`, every position and type is kept. */
  function Rotated(v: FloorView, x: int, y: int, d: Direction): (r: FloorView)
    ensures r.grid == v.grid && r.rooms == v.rooms && |r.entrances| == |v.entrances|
    ensures forall i :: 0 <= i < |v.entrances| ==>
              r.entrances[i].GridPosition == v.entrances[i].GridPosition && r.entrances[i].Type == v.entrances[i].Type
    ensures v.EntranceAt(x, y).Some? ==> r.EntranceAt(x, y) == Some(v.EntranceAt(x, y).value.(Direction := d))
    ensures v.EntranceAt(x, y).None? ==> r == v
  {
    var i := EntranceIndex(v.entrances, x, y);
    if i == -1 then v
    else
      var r := v.(entrances := v.entrances[i := v.entrances[i].(Direction := d)]);
      assert At(r.entrances[i], x, y);
      r
  }

  /** The direction the editor picks on floor `v` for (x, y): the existing entrance turned onwards
      (backwards on a non-left click), or for a new entrance the first open direction after East. */
  function LocalDirection(v: FloorView, x: int, y: int, left: bool): Option<Direction>
  {
    var e := v.EntranceAt(x, y);
    if e.Some? then NextDirection(v.grid, x, y, e.value.Direction, !left)
    else NextDirection(v.grid, x, y, East, false)
  }

  /** What a successful call does to its own floor: rotate the existing entrance, or add the new one. */
  function LocalEffect(v: FloorView, x: int, y: int, kind: EntranceType, d: Direction): FloorView
  {
    if v.EntranceAt(x, y).Some? then Rotated(v, x, y, d) else v.WithEntrance(x, y, kind, d)
  }

  datatype Outcome = Outcome(ok: bool, floors: seq<FloorView>)

  /** `w` differs from `v` at most in its entrances and its tile states: same tile count, stride and rooms. */
  predicate SameShape(v: FloorView, w: FloorView)
  {
    w.grid.stride == v.grid.stride && |w.grid.tiles| == |v.grid.tiles| && w.rooms == v.rooms
  }

  /** Floor by floor, `ws` has the shape of `vs`. */
  predicate Shaped(vs: seq<FloorView>, ws: seq<FloorView>)
  {
    |vs| == |ws| && forall k :: 0 <= k < |vs| ==> SameShape(vs[k], ws[k])
  }

  /** `AddEntrance(x, y, kind, f, src, left)` on the floors `vs`. When the direction search on floor `f`
      fails nothing changes and the result is false. Otherwise the neighbouring floors are updated first
      (`Propagation`), then floor `f` gets its local effect, and the result is true whatever the recursive
      calls returned. The call chain runs in one direction only, so its measure is the distance to the end
      it runs towards. */
  function AddEntranceSpec(vs: seq<FloorView>, x: int, y: int, kind: EntranceType, f: int, src: int, left: bool): (r: Outcome)
    requires 0 <= f < |vs|
    ensures |r.floors| == |vs| && Shaped(vs, r.floors)
    ensures r.ok <==> LocalDirection(vs[f], x, y, left).Some?
    ensures !r.ok ==> r.floors == vs
    ensures r.ok ==> r.floors[f] == LocalEffect(vs[f], x, y, kind, LocalDirection(vs[f], x, y, left).value)
    ensures src == f - 1 ==> forall k :: 0 <= k < f ==> r.floors[k] == vs[k]
    ensures src == f + 1 ==> forall k :: f < k < |vs| ==> r.floors[k] == vs[k]
    decreases (if src == f - 1 || src == f + 1 then 0 else 1), (if src == f - 1 then |vs| - f else f), 1
  {
    var d := LocalDirection(vs[f], x, y, left);
    if d.None? then Outcome(false, vs)
    else
      var e := vs[f].EntranceAt(x, y);
      var vs1 := if e.Some? then Propagation(vs, x, y, e.value.Type, kind, kind, f, src, left)
                 else Propagation(vs, x, y, kind, Terminal, EntranceType.Entrance, f, src, left);
      Outcome(true, vs1[f := LocalEffect(vs1[f], x, y, kind, d.value)])
  }

  /** The recursive calls `AddEntrance` makes on floor `f` for an entrance of type `t`: an Entrance goes up
      with `upKind`, a Terminal down with `downKind`, a Transition both ways (up first), a Passage nowhere;
      never back to `src` and never outside the floors. For an existing entrance both kinds are the
      requested one; for a new entrance they are Terminal and Entrance. Floor `f` itself is not touched. */
  function Propagation(vs: seq<FloorView>, x: int, y: int, t: EntranceType, upKind: EntranceType, downKind: EntranceType,
                       f: int, src: int, left: bool): (r: seq<FloorView>)
    requires 0 <= f < |vs|
    ensures |r| == |vs| && r[f] == vs[f] && Shaped(vs, r)
    ensures src == f - 1 ==> forall k :: 0 <= k < f ==> r[k] == vs[k]
    ensures src == f + 1 ==> forall k :: f < k < |vs| ==> r[k] == vs[k]
    decreases (if src == f - 1 || src == f + 1 then 0 else 1), (if src == f - 1 then |vs| - f else f), 0
  {
    var up := f < |vs| - 1 && f + 1 != src;
    var down := f > 0 && f - 1 != src;
    if t == EntranceType.Entrance && up then AddEntranceSpec(vs, x, y, upKind, f + 1, f, left).floors
    else if t == Terminal && down then AddEntranceSpec(vs, x, y, downKind, f - 1, f, left).floors
    else if t == Transition then
      var a := if up then AddEntranceSpec(vs, x, y, upKind, f + 1, f, left).floors else vs;
      if down then AddEntranceSpec(a, x, y, downKind, f - 1, f, left).floors else a
    else vs
  }

  /** A new Entrance on floor f, when the floor above is free at (x, y) and has an open direction there,
      creates a Terminal on the floor above that faces that direction. */
  lemma NewEntrancePairsUp(vs: seq<FloorView>, x: int, y: int, f: int, src: int, left: bool)
    requires 0 <= f < |vs| - 1 && src != f + 1
    requires vs[f].EntranceAt(x, y).None? && LocalDirection(vs[f], x, y, left).Some?
    requires vs[f + 1].EntranceAt(x, y).None? && LocalDirection(vs[f + 1], x, y, left).Some?
    ensures AddEntranceSpec(vs, x, y, EntranceType.Entrance, f, src, left).floors[f + 1].EntranceAt(x, y) ==
            Some(NewEntrance(x, y, Terminal, LocalDirection(vs[f + 1], x, y, left).value))
  {
    var a := AddEntranceSpec(vs, x, y, Terminal, f + 1, f, left).floors;
    AddEntranceLookup(vs[f + 1], x, y, Terminal, LocalDirection(vs[f + 1], x, y, left).value, x, y);
    assert AddEntranceSpec(vs, x, y, EntranceType.Entrance, f, src, left).floors[f + 1] == a[f + 1];
  }

  /** A new Terminal on floor f, when the floor below is free at (x, y) and has an open direction there,
      creates an Entrance on the floor below. */
  lemma NewTerminalPairsDown(vs: seq<FloorView>, x: int, y: int, f: int, src: int, left: bool)
    requires 0 < f < |vs| && src != f - 1
    requires vs[f].EntranceAt(x, y).None? && LocalDirection(vs[f], x, y, left).Some?
    requires vs[f - 1].EntranceAt(x, y).None? && LocalDirection(vs[f - 1], x, y, left).Some?
    ensures AddEntranceSpec(vs, x, y, Terminal, f, src, left).floors[f - 1].EntranceAt(x, y) ==
            Some(NewEntrance(x, y, EntranceType.Entrance, LocalDirection(vs[f - 1], x, y, left).value))
  {
    var a := AddEntranceSpec(vs, x, y, EntranceType.Entrance, f - 1, f, left).floors;
    AddEntranceLookup(vs[f - 1], x, y, EntranceType.Entrance, LocalDirection(vs[f - 1], x, y, left).value, x, y);
    assert AddEntranceSpec(vs, x, y, Terminal, f, src, left).floors[f - 1] == a[f - 1];
  }

  /** A new Transition between two floors, both free at (x, y) with an open direction there, creates a
      Terminal above and an Entrance below. */
  lemma NewTransitionPairsBoth(vs: seq<FloorView>, x: int, y: int, f: int, left: bool)
    requires 0 < f < |vs| - 1
    requires vs[f].EntranceAt(x, y).None? && LocalDirection(vs[f], x, y, left).Some?
    requires vs[f + 1].EntranceAt(x, y).None? && LocalDirection(vs[f + 1], x, y, left).Some?
    requires vs[f - 1].EntranceAt(x, y).None? && LocalDirection(vs[f - 1], x, y, left).Some?
    ensures AddEntranceSpec(vs, x, y, Transition, f, f, left).floors[f + 1].EntranceAt(x, y) ==
            Some(NewEntrance(x, y, Terminal, LocalDirection(vs[f + 1], x, y, left).value))
    ensures AddEntranceSpec(vs, x, y, Transition, f, f, left).floors[f - 1].EntranceAt(x, y) ==
            Some(NewEntrance(x, y, EntranceType.Entrance, LocalDirection(vs[f - 1], x, y, left).value))
  {
    var a := AddEntranceSpec(vs, x, y, Terminal, f + 1, f, left).floors;
    assert a[f - 1] == vs[f - 1];
    var b := AddEntranceSpec(a, x, y, EntranceType.Entrance, f - 1, f, left).floors;
    assert b[f + 1] == a[f + 1];
    AddEntranceLookup(vs[f + 1], x, y, Terminal, LocalDirection(vs[f + 1], x, y, left).value, x, y);
    AddEntranceLookup(vs[f - 1], x, y, EntranceType.Entrance, LocalDirection(vs[f - 1], x, y, left).value, x, y);
    assert Propagation(vs, x, y, Transition, Terminal, EntranceType.Entrance, f, f, left) == b;
    assert AddEntranceSpec(vs, x, y, Transition, f, f, left).floors == b[f := LocalEffect(b[f], x, y, Transition, LocalDirection(vs[f], x, y, left).value)];
  }

  /** A Passage, new or existing, propagates nowhere: only its own floor changes. */
  lemma PassageStaysLocal(vs: seq<FloorView>, x: int, y: int, kind: EntranceType, f: int, src: int, left: bool)
    requires 0 <= f < |vs|
    requires if vs[f].EntranceAt(x, y).Some? then vs[f].EntranceAt(x, y).value.Type == EntranceType.Passage else kind == EntranceType.Passage
    ensures forall k :: 0 <= k < |vs| && k != f ==> AddEntranceSpec(vs, x, y, kind, f, src, left).floors[k] == vs[k]
  {
    var d := LocalDirection(vs[f], x, y, left);
    if d.Some? {
      assert AddEntranceSpec(vs, x, y, kind, f, src, left).floors == vs[f := LocalEffect(vs[f], x, y, kind, d.value)];
    }
  }

  /** Clicking an existing entrance only turns it: the floor keeps its tiles, its entrance count and every
      entrance's position and type, and the entrance on (x, y) now faces the chosen direction. */
  lemma ExistingEntranceTurns(vs: seq<FloorView>, x: int, y: int, kind: EntranceType, f: int, src: int, left: bool)
    requires 0 <= f < |vs| && vs[f].EntranceAt(x, y).Some? && LocalDirection(vs[f], x, y, left).Some?
    ensures var r := AddEntranceSpec(vs, x, y, kind, f, src, left).floors[f];
            r.grid == vs[f].grid && |r.entrances| == |vs[f].entrances| &&
            (forall i :: 0 <= i < |r.entrances| ==>
               r.entrances[i].GridPosition == vs[f].entrances[i].GridPosition && r.entrances[i].Type == vs[f].entrances[i].Type) &&
            r.EntranceAt(x, y) == Some(vs[f].EntranceAt(x, y).value.(Direction := LocalDirection(vs[f], x, y, left).value))
  {
  }

  /** An existing Entrance forwards the requested kind, not Terminal, to the floor above: when that floor
      has no entrance there, the new one there has the requested kind. */
  lemma ExistingForwardsKind(vs: seq<FloorView>, x: int, y: int, kind: EntranceType, f: int, src: int, left: bool)
    requires 0 <= f < |vs| - 1 && src != f + 1
    requires vs[f].EntranceAt(x, y).Some? && vs[f].EntranceAt(x, y).value.Type == EntranceType.Entrance
    requires LocalDirection(vs[f], x, y, left).Some?
    requires vs[f + 1].EntranceAt(x, y).None? && LocalDirection(vs[f + 1], x, y, left).Some?
    ensures AddEntranceSpec(vs, x, y, kind, f, src, left).floors[f + 1].EntranceAt(x, y) ==
            Some(NewEntrance(x, y, kind, LocalDirection(vs[f + 1], x, y, left).value))
  {
    var a := AddEntranceSpec(vs, x, y, kind, f + 1, f, left).floors;
    AddEntranceLookup(vs[f + 1], x, y, kind, LocalDirection(vs[f + 1], x, y, left).value, x, y);
    assert AddEntranceSpec(vs, x, y, kind, f, src, left).floors[f + 1] == a[f + 1];
  }

  /** The number of entrances on all floors. */
  function Total(vs: seq<FloorView>): nat
  {
    if |vs| == 0 then 0 else Total(vs[..|vs| - 1]) + |vs[|vs| - 1].entrances|
  }

  lemma {:induction false} TotalUpdate(vs: seq<FloorView>, f: int, v: FloorView)
    requires 0 <= f < |vs|
    ensures Total(vs[f := v]) == Total(vs) - |vs[f].entrances| + |v.entrances|
    decreases |vs|
  {
    var ws := vs[f := v];
    if f < |vs| - 1 {
      assert ws[..|ws| - 1] == vs[..|vs| - 1][f := v];
      TotalUpdate(vs[..|vs| - 1], f, v);
    } else {
      assert ws[..|ws| - 1] == vs[..|vs| - 1];
    }
  }

  /** Floor by floor, `r` has the tiles and rooms of `vs` and no entrance `vs` lacks. */
  ghost predicate Thinned(vs: seq<FloorView>, r: seq<FloorView>)
  {
    |r| == |vs| &&
    (forall k :: 0 <= k < |vs| ==> r[k].grid == vs[k].grid && r[k].rooms == vs[k].rooms) &&
    (forall k :: 0 <= k < |vs| ==> multiset(r[k].entrances) <= multiset(vs[k].entrances))
  }

  lemma ThinnedTrans(a: seq<FloorView>, b: seq<FloorView>, c: seq<FloorView>)
    requires Thinned(a, b) && Thinned(b, c)
    ensures Thinned(a, c)
  {
  }

  /** One productive step of the removal: the first entrance on (x, y) of floor f goes. */
  function RemoveHere(vs: seq<FloorView>, x: int, y: int, f: int): (r: seq<FloorView>)
    requires 0 <= f < |vs| && vs[f].EntranceAt(x, y).Some?
    ensures |r| == |vs| && Total(r) == Total(vs) - 1
    ensures Thinned(vs, r)
  {
    RemoveEntranceCount(vs[f], x, y);
    TotalUpdate(vs, f, vs[f].WithoutEntranceAt(x, y));
    vs[f := vs[f].WithoutEntranceAt(x, y)]
  }

  /** `RemoveEntrance(x, y, f)`: nothing when floor f has no entrance on (x, y); otherwise that entrance
      is removed, then the counterparts its type implies: above for an Entrance, below for a Terminal,
      both (above first) for a Transition. There is no guard against going back, so the recursion ends
      because every productive call removes one entrance. Tiles and rooms never change, and no floor
      gains an entrance. */
  function RemoveSpec(vs: seq<FloorView>, x: int, y: int, f: int): (r: seq<FloorView>)
    requires 0 <= f < |vs|
    ensures |r| == |vs| && Total(r) <= Total(vs)
    ensures vs[f].EntranceAt(x, y).None? ==> r == vs
    ensures vs[f].EntranceAt(x, y).Some? ==> Total(r) < Total(vs)
    ensures Thinned(vs, r)
    decreases Total(vs)
  {
    var e := vs[f].EntranceAt(x, y);
    if e.None? then vs
    else
      var vs1 := RemoveHere(vs, x, y, f);
      if e.value.Type == EntranceType.Entrance && f < |vs| - 1 then
        var b := RemoveSpec(vs1, x, y, f + 1);
        ThinnedTrans(vs, vs1, b);
        b
      else if e.value.Type == Terminal && f > 0 then
        var b := RemoveSpec(vs1, x, y, f - 1);
        ThinnedTrans(vs, vs1, b);
        b
      else if e.value.Type == Transition then
        var a := if f < |vs| - 1 then RemoveSpec(vs1, x, y, f + 1) else vs1;
        ThinnedTrans(vs, vs1, a);
        if f > 0 then
          var b := RemoveSpec(a, x, y, f - 1);
          ThinnedTrans(vs, a, b);
          b
        else a
      else vs1
  }

  /** Removing an Entrance that is the only entrance on (x, y) of its floor, paired with a Terminal above,
      removes exactly those two: the Terminal's own walk back down finds nothing more. */
  lemma RemoveEntrancePair(vs: seq<FloorView>, x: int, y: int, f: int)
    requires 0 <= f < |vs| - 1
    requires vs[f].EntranceAt(x, y).Some? && vs[f].EntranceAt(x, y).value.Type == EntranceType.Entrance
    requires vs[f].WithoutEntranceAt(x, y).EntranceAt(x, y).None?
    requires vs[f + 1].EntranceAt(x, y).Some? && vs[f + 1].EntranceAt(x, y).value.Type == Terminal
    ensures RemoveSpec(vs, x, y, f) ==
            vs[f := vs[f].WithoutEntranceAt(x, y)][f + 1 := vs[f + 1].WithoutEntranceAt(x, y)]
  {
    var vs1 := RemoveHere(vs, x, y, f);
    assert RemoveSpec(vs, x, y, f) == RemoveSpec(vs1, x, y, f + 1);
    assert vs1[f + 1] == vs[f + 1];
    var vs2 := RemoveHere(vs1, x, y, f + 1);
    assert RemoveSpec(vs1, x, y, f + 1) == RemoveSpec(vs2, x, y, f);
    assert vs2[f] == vs[f].WithoutEntranceAt(x, y);
    assert RemoveSpec(vs2, x, y, f) == vs2;
  }

  /** Whether an entrance lies in the inclusive rectangle [x..xx] x [y..yy]. */
  predicate InsideInclusive(e: Entrance, x: int, y: int, xx: int, yy: int)
  {
    x <= e.GridPosition.X <= xx && y <= e.GridPosition.Y <= yy
  }

  /** Whether some entrance forbids subtracting [x..xx] x [y..yy]. */
  predicate BlocksSubtraction(es: seq<Entrance>, x: int, y: int, xx: int, yy: int)
  {
    exists i :: 0 <= i < |es| && InsideInclusive(es[i], x, y, xx, yy)
  }

  /** `HandleBoundsOp` on the active floor: an add makes [x, xx+1) x [y, yy+1) Vacant; a subtraction
      makes it Unavailable unless an entrance lies in the inclusive rectangle, when nothing changes. */
  function BoundsOp(v: FloorView, x: int, y: int, xx: int, yy: int, add: bool): (r: FloorView)
    requires v.grid.Valid()
    ensures r.entrances == v.entrances && r.rooms == v.rooms && r.grid.Valid()
  {
    if add then v.(grid := v.grid.SetArea(x, y, xx + 1, yy + 1, Vacant))
    else if BlocksSubtraction(v.entrances, x, y, xx, yy) then v
    else v.(grid := v.grid.SetArea(x, y, xx + 1, yy + 1, Unavailable))
  }

  /** The bounds edit: every in-bounds tile of the inclusive rectangle gets the new state (Vacant for an
      add, Unavailable for an accepted subtraction) and every other tile keeps its state; a refused
      subtraction changes nothing; and a subtraction never changes the tile under an entrance. */
  lemma BoundsOpEffect(v: FloorView, x: int, y: int, xx: int, yy: int, add: bool, cx: int, cy: int, t: FloorTileType)
    requires v.grid.Valid()
    ensures var r := BoundsOp(v, x, y, xx, yy, add);
            (add || !BlocksSubtraction(v.entrances, x, y, xx, yy)) ==>
              r.grid.CheckType(cx, cy, t) ==
                if x <= cx <= xx && y <= cy <= yy && v.grid.InBounds(cx, cy) then t == (if add then Vacant else Unavailable)
                else v.grid.CheckType(cx, cy, t)
    ensures !add && BlocksSubtraction(v.entrances, x, y, xx, yy) ==> BoundsOp(v, x, y, xx, yy, add) == v
    ensures !add ==> forall i :: 0 <= i < |v.entrances| ==>
              BoundsOp(v, x, y, xx, yy, add).grid.CheckType(v.entrances[i].GridPosition.X, v.entrances[i].GridPosition.Y, t) ==
              v.grid.CheckType(v.entrances[i].GridPosition.X, v.entrances[i].GridPosition.Y, t)
  {
    SetAreaEffect(v.grid, x, y, xx + 1, yy + 1, if add then Vacant else Unavailable);
    if !add && !BlocksSubtraction(v.entrances, x, y, xx, yy) {
      forall i | 0 <= i < |v.entrances|
        ensures !InsideInclusive(v.entrances[i], x, y, xx, yy) {
      }
    }
  }

  /** The Terminal copies `AddNewFloor` makes of a floor's entrances: one per Entrance or Transition, in
      order, at the same position and facing the same way. */
  function TerminalCopies(es: seq<Entrance>): (r: seq<Entrance>)
    ensures |r| <= |es|
    ensures forall i :: 0 <= i < |r| ==> r[i].Type == Terminal
  {
    if |es| == 0 then []
    else
      var e := es[|es| - 1];
      TerminalCopies(es[..|es| - 1]) +
        (if e.Type != Terminal && e.Type != EntranceType.Passage then [e.(Type := Terminal)] else [])
  }

  /** The loop of `AddNewFloor`: `AddEntrance` on the new floor for each copied entrance. */
  function CopyTerminals(v: FloorView, es: seq<Entrance>): (r: FloorView)
    ensures r.entrances == v.entrances + TerminalCopies(es) && r.rooms == v.rooms
    ensures r.grid.stride == v.grid.stride && |r.grid.tiles| == |v.grid.tiles|
  {
    if |es| == 0 then v
    else
      var e := es[|es| - 1];
      var w := CopyTerminals(v, es[..|es| - 1]);
      if e.Type != Terminal && e.Type != EntranceType.Passage then
        w.WithEntrance(e.GridPosition.X, e.GridPosition.Y, Terminal, e.Direction)
      else w
  }

  /** The new top floor `AddNewFloor` builds on `previous`: a copy of its tiles, no rooms, and the Terminal
      copies of its Entrance and Transition entrances. */
  function NewTopFloor(previous: FloorView): FloorView
  {
    CopyTerminals(FloorView(previous.grid, [], []), previous.entrances)
  }

  /** Every entrance of the new top floor is a Terminal standing where the floor below has an Entrance or
      a Transition facing the same way, and every such entrance below has its Terminal above. */
  lemma {:induction false} TerminalCopiesMatch(es: seq<Entrance>)
    ensures forall j :: 0 <= j < |TerminalCopies(es)| ==>
              exists i :: 0 <= i < |es| && (es[i].Type == EntranceType.Entrance || es[i].Type == Transition) &&
                          TerminalCopies(es)[j] == es[i].(Type := Terminal)
    ensures forall i :: 0 <= i < |es| && (es[i].Type == EntranceType.Entrance || es[i].Type == Transition) ==>
              es[i].(Type := Terminal) in TerminalCopies(es)
  {
    if |es| > 0 {
      var init := es[..|es| - 1];
      TerminalCopiesMatch(init);
      var r := TerminalCopies(es);
      forall j | 0 <= j < |r|
        ensures exists i :: 0 <= i < |es| && (es[i].Type == EntranceType.Entrance || es[i].Type == Transition) &&
                            r[j] == es[i].(Type := Terminal) {
        if j < |TerminalCopies(init)| {
          assert r[j] == TerminalCopies(init)[j];
          var i :| 0 <= i < |init| && (init[i].Type == EntranceType.Entrance || init[i].Type == Transition) &&
                   TerminalCopies(init)[j] == init[i].(Type := Terminal);
          assert es[i] == init[i];
        } else {
          assert r[j] == es[|es| - 1].(Type := Terminal);
        }
      }
      forall i | 0 <= i < |es| && (es[i].Type == EntranceType.Entrance || es[i].Type == Transition)
        ensures es[i].(Type := Terminal) in r {
        if i < |init| {
          assert es[i] == init[i];
        }
      }
    } else {
      assert TerminalCopies(es) == [];
    }
  }

  /** `RemoveFloor`'s hand-over to the floor above: each Terminal or Transition of the removed floor is
      added there, every other entrance removes the first entrance at its position there. */
  function HandOver(upper: FloorView, es: seq<Entrance>): (r: FloorView)
    ensures r.rooms == upper.rooms
    ensures r.grid.stride == upper.grid.stride && |r.grid.tiles| == |upper.grid.tiles|
  {
    if |es| == 0 then upper
    else
      var e := es[|es| - 1];
      var w := HandOver(upper, es[..|es| - 1]);
      if e.Type == Terminal || e.Type == Transition then w.WithEntrance(e.GridPosition.X, e.GridPosition.Y, e.Type, e.Direction)
      else w.WithoutEntranceAt(e.GridPosition.X, e.GridPosition.Y)
  }

  /** The data part of `RemoveFloor` on floors `vs` with active floor `active`: with one floor nothing
      happens; otherwise the floor above (if any) first receives the hand-over, the active floor goes, and
      the active index stays unless it ran past the top. */
  function RemoveFloorSpec(vs: seq<FloorView>, active: int): (r: (seq<FloorView>, int))
    requires 0 <= active < |vs|
    ensures |vs| == 1 ==> r == (vs, active)
    ensures |vs| > 1 ==> |r.0| == |vs| - 1
    ensures 0 <= r.1 < |r.0|
  {
    if |vs| == 1 then (vs, active)
    else
      var vs1 := HandedOver(vs, active);
      var vs2 := vs1[..active] + vs1[active + 1..];
      (vs2, if active >= |vs2| then active - 1 else active)
  }

  /** The floors after the active floor's entrances went to the floor above it (nothing when it is the top). */
  function HandedOver(vs: seq<FloorView>, active: int): (r: seq<FloorView>)
    requires 0 <= active < |vs|
    ensures |r| == |vs|
  {
    if active < |vs| - 1 then vs[active + 1 := HandOver(vs[active + 1], vs[active].entrances)] else vs
  }

  /** Removing a floor keeps the floors below the active one, shifts those above it down by one, and puts
      the floor that received the hand-over in the active floor's place. */
  lemma RemoveFloorSpecKeeps(vs: seq<FloorView>, active: int)
    requires 0 <= active < |vs|
    ensures var r := RemoveFloorSpec(vs, active);
            (forall k :: 0 <= k < active && k < |r.0| ==> r.0[k] == vs[k]) &&
            (forall k :: active < k < |r.0| ==> r.0[k] == vs[k + 1]) &&
            (|vs| > 1 && active < |vs| - 1 ==> r.0[active] == HandOver(vs[active + 1], vs[active].entrances))
  {
  }

  /** `RemoveFloorSpec` on more than one floor, given the floors after the hand-over and after the removal. */
  lemma RemoveFloorSpecOf(vs: seq<FloorView>, active: int, handed: seq<FloorView>, after: seq<FloorView>, next: int)
    requires 0 <= active < |vs| && |vs| > 1 && handed == HandedOver(vs, active)
    requires after == handed[..active] + handed[active + 1..]
    requires next == if active >= |vs| - 1 then active - 1 else active
    ensures RemoveFloorSpec(vs, active) == (after, next)
  {
    assert |after| == |vs| - 1;
  }

  /** `RemoveFloorSpec` on a single floor changes nothing. */
  lemma RemoveFloorSpecOne(vs: seq<FloorView>, active: int)
    requires 0 <= active < |vs| && |vs| == 1
    ensures RemoveFloorSpec(vs, active) == (vs, active)
  {
  }
}

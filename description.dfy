/** The building description file (`ExportBuildingDescription`, `ParseBuilding` and its helpers in
    EditorV2/Editor/IO/BuildingXmlIo.cs, and the identical writer in BuildGen/Common/IO/BuildingXmlIo.cs),
    as functions over the element tree: the tree the writer's text spells out, what the reader builds from
    a tree, and the round trip between the two. */
module BuildingDescriptions {
  import opened Wrappers
  import opened Seqs
  import opened Directions
  import opened Points
  import opened Rectangles
  import opened Grids
  import opened Entrances
  import opened Floors
  import opened Buildings
  import opened Decimals
  import opened XmlTrees

  /** The building-level values the description carries besides its floors. */
  datatype Settings = Settings(seed: int, constraints: Option<string>, width: real, height: real, resolution: real)

  /** `!string.IsNullOrEmpty(ConstraintSet)`. */
  predicate HasConstraints(c: Option<string>)
  {
    c.Some? && c.value != ""
  }

  const DescriptionError: string := "Argument is null or contains invalid data."

  // ---------------------------------------------------------------------------------------------------
  // The writer's tree.

  /** `seed` only when it is not 0 and `constraints` only when it is neither null nor empty; the floor
      count and the three dimensions always. Real numbers are written by `realText`. */
  function BuildingAttributes(s: Settings, count: int, realText: real -> string): seq<Attribute>
  {
    [Attribute("xmlns", "InputSchema")] + SeedAttribute(s) + ConstraintsAttribute(s) +
    [Attribute("floorcount", DecimalString(count))] + [Attribute("floorwidth", realText(s.width))] +
    [Attribute("floorheight", realText(s.height))] + [Attribute("gridresolution", realText(s.resolution))]
  }

  function SeedAttribute(s: Settings): seq<Attribute>
  {
    if s.seed != 0 then [Attribute("seed", DecimalString(s.seed))] else []
  }

  function ConstraintsAttribute(s: Settings): seq<Attribute>
  {
    if HasConstraints(s.constraints) then [Attribute("constraints", s.constraints.value)] else []
  }

  function RectElement(r: Rectangle): Element
  {
    Element("rect", [Attribute("x", DecimalString(r.X())), Attribute("y", DecimalString(r.Y())),
                     Attribute("xx", DecimalString(r.XX())), Attribute("yy", DecimalString(r.YY()))], [])
  }

  function EntranceElement(e: Entrance): Element
  {
    Element("entrance", [Attribute("x", DecimalString(e.GridPosition.X)), Attribute("y", DecimalString(e.GridPosition.Y)),
                         Attribute("type", TypeName(e.Type)), Attribute("direction", Name(e.Direction))], [])
  }

  function RectElements(rs: seq<Rectangle>): (r: seq<Element>)
    ensures |r| == |rs| && forall i :: 0 <= i < |rs| ==> r[i] == RectElement(rs[i])
  {
    seq(|rs|, i requires 0 <= i < |rs| => RectElement(rs[i]))
  }

  function EntranceElements(es: seq<Entrance>): (r: seq<Element>)
    ensures |r| == |es| && forall i :: 0 <= i < |es| ==> r[i] == EntranceElement(es[i])
  {
    seq(|es|, i requires 0 <= i < |es| => EntranceElement(es[i]))
  }

  /** The unavailable area as `FindRectangles(Unavailable)` reports it. */
  function SubboundsElement(v: FloorView): Element
  {
    Element("subbounds", [], RectElements(v.grid.FindRects(Unavailable, false)))
  }

  /** A floor: its subtracted bounds, then one element per entrance, in list order. */
  function FloorElement(v: FloorView): Element
  {
    Element("floor", [], [SubboundsElement(v)] + EntranceElements(v.entrances))
  }

  function FloorElements(vs: seq<FloorView>): (r: seq<Element>)
    ensures |r| == |vs| && forall i :: 0 <= i < |vs| ==> r[i] == FloorElement(vs[i])
  {
    seq(|vs|, i requires 0 <= i < |vs| => FloorElement(vs[i]))
  }

  function DescriptionTree(s: Settings, vs: seq<FloorView>, realText: real -> string): Element
  {
    Element("building", BuildingAttributes(s, |vs|, realText), [Element("floorplans", [], FloorElements(vs))])
  }

  /** The guard of the writer: a building with floors, all of them valid. */
  predicate Exportable(vs: seq<FloorView>)
  {
    |vs| > 0 && AllValid(vs)
  }

  // ---------------------------------------------------------------------------------------------------
  // The reader.

  /** How a parse helper ended: normally, by returning false, or by an exception. */
  datatype Status = Done | Refused | Thrown(exception: Exception)

  /** One child of `<subbounds>`: a `<rect>` with all four attributes marks its cells Unavailable; any
      other child, or a rect missing an attribute, is skipped. */
  function ReadRect(v: FloorView, c: Element): (r: (FloorView, Status))
    requires v.grid.Valid()
    ensures r.1 != Refused && r.0.entrances == v.entrances && r.0.rooms == v.rooms
    ensures r.0.grid.stride == v.grid.stride && |r.0.grid.tiles| == |v.grid.tiles|
    ensures r.1.Thrown? ==> r.0 == v && r.1.exception in {FormatException, OverflowException}
  {
    var x, y, xx, yy := Attr(c, "x"), Attr(c, "y"), Attr(c, "xx"), Attr(c, "yy");
    if c.name != "rect" || x.None? || y.None? || xx.None? || yy.None? then (v, Done)
    else
      var px := ParseInt(x.value);
      if px.Throws? then (v, Thrown(px.exception)) else
      var py := ParseInt(y.value);
      if py.Throws? then (v, Thrown(py.exception)) else
      var pxx := ParseInt(xx.value);
      if pxx.Throws? then (v, Thrown(pxx.exception)) else
      var pyy := ParseInt(yy.value);
      if pyy.Throws? then (v, Thrown(pyy.exception))
      else (v.(grid := v.grid.SetArea(px.value, py.value, pxx.value, pyy.value, Unavailable)), Done)
  }

  /** `ParseSubtractedBounds` over the children `cs`, in order. */
  function ReadRects(v: FloorView, cs: seq<Element>): (r: (FloorView, Status))
    requires v.grid.Valid()
    ensures r.1 != Refused && r.0.entrances == v.entrances && r.0.rooms == v.rooms
    ensures r.0.grid.stride == v.grid.stride && |r.0.grid.tiles| == |v.grid.tiles|
    decreases |cs|
  {
    if |cs| == 0 then (v, Done)
    else
      var p := ReadRects(v, cs[..|cs| - 1]);
      if p.1 != Done then p else ReadRect(p.0, cs[|cs| - 1])
  }

  lemma ReadRectsSnoc(v: FloorView, cs: seq<Element>, n: nat)
    requires v.grid.Valid() && n < |cs| && ReadRects(v, cs[..n]).1 == Done
    ensures ReadRects(v, cs[..n + 1]) == ReadRect(ReadRects(v, cs[..n]).0, cs[n])
  {
    TakeOfTake(cs, n);
  }

  /** `ParseEntrance`: false when an attribute is missing; otherwise the four values are parsed in
      argument order (an unknown enum name throws ArgumentException) and the entrance is added. */
  function ReadEntrance(v: FloorView, c: Element): (r: (FloorView, Status))
    ensures r.0.rooms == v.rooms && r.0.grid.stride == v.grid.stride && |r.0.grid.tiles| == |v.grid.tiles|
    ensures r.1 == Refused <==> Attr(c, "x").None? || Attr(c, "y").None? || Attr(c, "type").None? || Attr(c, "direction").None?
    ensures r.1 != Done ==> r.0 == v
  {
    var x, y, t, d := Attr(c, "x"), Attr(c, "y"), Attr(c, "type"), Attr(c, "direction");
    if x.None? || y.None? || t.None? || d.None? then (v, Refused)
    else
      var px := ParseInt(x.value);
      if px.Throws? then (v, Thrown(px.exception)) else
      var py := ParseInt(y.value);
      if py.Throws? then (v, Thrown(py.exception)) else
      var kind := ParseTypeName(t.value);
      if kind.None? then (v, Thrown(ArgumentException)) else
      var direction := ParseName(d.value);
      if direction.None? then (v, Thrown(ArgumentException))
      else (v.WithEntrance(px.value, py.value, kind.value, direction.value), Done)
  }

  /** One child of `<floor>`: `subbounds` and `entrance` are parsed, anything else is skipped. */
  function ReadFloorChild(v: FloorView, c: Element): (r: (FloorView, Status))
    requires v.grid.Valid()
    ensures r.0.rooms == v.rooms && r.0.grid.stride == v.grid.stride && |r.0.grid.tiles| == |v.grid.tiles|
  {
    if c.name == "subbounds" then ReadRects(v, c.children)
    else if c.name == "entrance" then ReadEntrance(v, c)
    else (v, Done)
  }

  /** `ParseFloor` over the children `cs`: stops at the first helper that returns false or throws. */
  function ReadFloor(v: FloorView, cs: seq<Element>): (r: (FloorView, Status))
    requires v.grid.Valid()
    ensures r.0.rooms == v.rooms && r.0.grid.stride == v.grid.stride && |r.0.grid.tiles| == |v.grid.tiles|
    decreases |cs|
  {
    if |cs| == 0 then (v, Done)
    else
      var p := ReadFloor(v, cs[..|cs| - 1]);
      if p.1 != Done then p else ReadFloorChild(p.0, cs[|cs| - 1])
  }

  lemma ReadFloorSnoc(v: FloorView, cs: seq<Element>, n: nat)
    requires v.grid.Valid() && n < |cs| && ReadFloor(v, cs[..n]).1 == Done
    ensures ReadFloor(v, cs[..n + 1]) == ReadFloorChild(ReadFloor(v, cs[..n]).0, cs[n])
  {
    TakeOfTake(cs, n);
  }

  /** The `<floor>` children of one `<floorplans>` element, parsed into floors `cur`, `cur + 1`, ...;
      indexing past the last floor throws ArgumentOutOfRangeException. */
  function ReadFloorList(vs: seq<FloorView>, cur: int, cs: seq<Element>): (r: (seq<FloorView>, int, Status))
    requires GridsValid(vs) && cur >= 0
    ensures |r.0| == |vs| && GridsValid(r.0) && r.1 >= cur
    ensures forall k :: 0 <= k < |vs| ==> r.0[k].rooms == vs[k].rooms
    decreases |cs|
  {
    if |cs| == 0 then (vs, cur, Done)
    else FloorListStep(ReadFloorList(vs, cur, cs[..|cs| - 1]), cs[|cs| - 1])
  }

  /** One child of `<floorplans>` after the state `p`: a `<floor>` is read into the current floor, which
      then advances when the floor was read in full. */
  function FloorListStep(p: (seq<FloorView>, int, Status), c: Element): (r: (seq<FloorView>, int, Status))
    requires GridsValid(p.0) && p.1 >= 0
    ensures |r.0| == |p.0| && GridsValid(r.0) && r.1 >= p.1
    ensures forall k :: 0 <= k < |p.0| ==> r.0[k].rooms == p.0[k].rooms
  {
    if p.2 != Done || c.name != "floor" then p
    else if p.1 >= |p.0| then (p.0, p.1, Thrown(ArgumentOutOfRangeException))
    else
      var f := ReadFloor(p.0[p.1], c.children);
      (p.0[p.1 := f.0], if f.1 == Done then p.1 + 1 else p.1, f.1)
  }

  /** The step for a `<floor>` child when the current floor exists. */
  lemma FloorListStepFloor(vs: seq<FloorView>, k: int, c: Element)
    requires GridsValid(vs) && 0 <= k < |vs| && c.name == "floor"
    ensures var f := ReadFloor(vs[k], c.children);
            FloorListStep((vs, k, Done), c) == (vs[k := f.0], if f.1 == Done then k + 1 else k, f.1)
  {
  }

  lemma ReadFloorListSnoc(vs: seq<FloorView>, cur: int, cs: seq<Element>, n: nat)
    requires GridsValid(vs) && cur >= 0 && n < |cs|
    ensures ReadFloorList(vs, cur, cs[..n + 1]) == FloorListStep(ReadFloorList(vs, cur, cs[..n]), cs[n])
  {
    TakeOfTake(cs, n);
  }

  /** Every `<floorplans>` child of the root, in order, continuing the floor index. */
  function ReadFloorplans(vs: seq<FloorView>, cur: int, cs: seq<Element>): (r: (seq<FloorView>, int, Status))
    requires GridsValid(vs) && cur >= 0
    ensures |r.0| == |vs| && GridsValid(r.0) && r.1 >= cur
    ensures forall k :: 0 <= k < |vs| ==> r.0[k].rooms == vs[k].rooms
    decreases |cs|
  {
    if |cs| == 0 then (vs, cur, Done)
    else
      var p := ReadFloorplans(vs, cur, cs[..|cs| - 1]);
      var c := cs[|cs| - 1];
      if p.2 != Done || c.name != "floorplans" then p else ReadFloorList(p.0, p.1, c.children)
  }

  lemma ReadFloorplansSnoc(vs: seq<FloorView>, cur: int, cs: seq<Element>, n: nat)
    requires GridsValid(vs) && cur >= 0 && n < |cs| && ReadFloorplans(vs, cur, cs[..n]).2 == Done
    ensures var p := ReadFloorplans(vs, cur, cs[..n]);
            ReadFloorplans(vs, cur, cs[..n + 1]) == if cs[n].name != "floorplans" then p else ReadFloorList(p.0, p.1, cs[n].children)
  {
    TakeOfTake(cs, n);
  }

  // Each fold stops at the first child that does not end normally: the rest of the children are not read.

  lemma {:induction false} ReadRectsStops(v: FloorView, cs: seq<Element>, n: nat)
    requires v.grid.Valid() && n <= |cs| && ReadRects(v, cs[..n]).1 != Done
    ensures ReadRects(v, cs) == ReadRects(v, cs[..n])
    decreases |cs|
  {
    if n < |cs| {
      var init := cs[..|cs| - 1];
      assert init[..n] == cs[..n];
      ReadRectsStops(v, init, n);
    } else {
      assert cs[..n] == cs;
    }
  }

  lemma {:induction false} ReadFloorStops(v: FloorView, cs: seq<Element>, n: nat)
    requires v.grid.Valid() && n <= |cs| && ReadFloor(v, cs[..n]).1 != Done
    ensures ReadFloor(v, cs) == ReadFloor(v, cs[..n])
    decreases |cs|
  {
    if n < |cs| {
      var init := cs[..|cs| - 1];
      assert init[..n] == cs[..n];
      ReadFloorStops(v, init, n);
    } else {
      assert cs[..n] == cs;
    }
  }

  lemma {:induction false} ReadFloorListStops(vs: seq<FloorView>, cur: int, cs: seq<Element>, n: nat)
    requires GridsValid(vs) && cur >= 0 && n <= |cs| && ReadFloorList(vs, cur, cs[..n]).2 != Done
    ensures ReadFloorList(vs, cur, cs) == ReadFloorList(vs, cur, cs[..n])
    decreases |cs|
  {
    if n < |cs| {
      var init := cs[..|cs| - 1];
      assert init[..n] == cs[..n];
      ReadFloorListStops(vs, cur, init, n);
    } else {
      assert cs[..n] == cs;
    }
  }

  lemma {:induction false} ReadFloorplansStops(vs: seq<FloorView>, cur: int, cs: seq<Element>, n: nat)
    requires GridsValid(vs) && cur >= 0 && n <= |cs| && ReadFloorplans(vs, cur, cs[..n]).2 != Done
    ensures ReadFloorplans(vs, cur, cs) == ReadFloorplans(vs, cur, cs[..n])
    decreases |cs|
  {
    if n < |cs| {
      var init := cs[..|cs| - 1];
      assert init[..n] == cs[..n];
      ReadFloorplansStops(vs, cur, init, n);
    } else {
      assert cs[..n] == cs;
    }
  }

  /** What a successful read produces. */
  datatype Loaded = Loaded(settings: Settings, floors: seq<FloorView>)

  /** The stored error message afterwards, when the reader sets one. */
  function CountMismatch(expected: int, got: int): string
  {
    "Incorrect number of floors (expected " + DecimalString(expected) + " got " + DecimalString(got) + ")"
  }

  const InvalidBuilding: string := "Invalid building"

  /** `ParseBuilding` with `rows` by `columns` floors: null (None) when a required attribute is missing, a
      floor fails to parse or the result is not valid; the exceptions of the parse calls and of `AddFloor`
      propagate. The second component is the error message the reader stores, if it stores one. */
  function ReadBuilding(root: Element, rows: nat, columns: nat, readReal: string -> Result<real>)
    : (r: (Result<Option<Loaded>>, Option<string>))
    ensures r.0.Ok? && r.0.value.Some? ==> AllValid(r.0.value.value.floors) && r.1 != Some(InvalidBuilding)
  {
    var fc, fw, fh, gr := Attr(root, "floorcount"), Attr(root, "floorwidth"), Attr(root, "floorheight"),
                          Attr(root, "gridresolution");
    if fc.None? || fw.None? || fh.None? || gr.None? then (Ok(None), None)
    else
      var w, h, res := readReal(fw.value), readReal(fh.value), readReal(gr.value);
      if w.Throws? then (Throws(w.exception), None)
      else if h.Throws? then (Throws(h.exception), None)
      else if res.Throws? then (Throws(res.exception), None)
      else
        var made := NewBuilding(root, w.value, h.value, res.value, rows, columns);
        if made.Throws? then (Throws(made.exception), None)
        else ReadFloors(made.value.0, made.value.1, root.children)
  }

  /** The building `ParseBuilding` creates before it reads the floorplans: the floor count is parsed, that
      many floors are added (the first `AddFloor` throws without columns), then the optional seed is parsed
      and the optional constraint set name taken as it is. */
  function NewBuilding(root: Element, width: real, height: real, resolution: real, rows: nat, columns: nat)
    : (r: Result<(seq<FloorView>, Settings)>)
    requires Attr(root, "floorcount").Some?
    ensures r.Ok? ==> GridsValid(r.value.0)
  {
    var count := ParseInt(Attr(root, "floorcount").value);
    if count.Throws? then Throws(count.exception)
    else if count.value > 0 && columns == 0 then Throws(DivideByZeroException)
    else
      var n: nat := if count.value > 0 then count.value else 0;
      var seed := Attr(root, "seed");
      var parsedSeed := if seed.Some? then ParseInt(seed.value) else Ok(0);
      if parsedSeed.Throws? then Throws(parsedSeed.exception)
      else Ok((EmptyFloors(n, rows, columns), Settings(parsedSeed.value, Attr(root, "constraints"), width, height, resolution)))
  }

  /** The second half of `ParseBuilding`: the floorplans, the floor count check and the validity check. */
  function ReadFloors(floors: seq<FloorView>, settings: Settings, cs: seq<Element>)
    : (r: (Result<Option<Loaded>>, Option<string>))
    requires GridsValid(floors)
    ensures r.0.Ok? && r.0.value.Some? ==> AllValid(r.0.value.value.floors) && r.1 != Some(InvalidBuilding)
  {
    Concluded(ReadFloorplans(floors, 0, cs), |floors|, settings)
  }

  /** The checks after the floorplans were read into `p`: a thrown exception propagates and a failed floor
      gives null; otherwise a count other than `count` only sets the message, and the floors are returned
      when they are all valid, else the message says the building is invalid. */
  function Concluded(p: (seq<FloorView>, int, Status), count: int, settings: Settings)
    : (r: (Result<Option<Loaded>>, Option<string>))
    ensures r.0.Ok? && r.0.value.Some? ==> AllValid(r.0.value.value.floors) && r.1 != Some(InvalidBuilding)
  {
    if p.2.Thrown? then (Throws(p.2.exception), None)
    else if p.2 == Refused then (Ok(None), None)
    else
      var message := if p.1 != count then Some(CountMismatch(count, p.1)) else None;
      if AllValid(p.0) then (Ok(Some(Loaded(settings, p.0))), message)
      else (Ok(None), Some(InvalidBuilding))
  }

  // ---------------------------------------------------------------------------------------------------
  // Reading back what the writer wrote.

  /** The entrances added one after another with `Floor.AddEntrance`, as the reader does. */
  function AddAll(v: FloorView, es: seq<Entrance>): (r: FloorView)
    ensures r.rooms == v.rooms && r.grid.stride == v.grid.stride && |r.grid.tiles| == |v.grid.tiles|
    decreases |es|
  {
    if |es| == 0 then v
    else
      var e := es[|es| - 1];
      AddAll(v, es[..|es| - 1]).WithEntrance(e.GridPosition.X, e.GridPosition.Y, e.Type, e.Direction)
  }

  /** Adding the entrances appends them in order and turns exactly the in-bounds tiles holding one into
      Other. */
  lemma {:induction false} AddAllEffect(v: FloorView, es: seq<Entrance>)
    requires v.grid.Valid()
    ensures AddAll(v, es).entrances == v.entrances + es
    ensures forall i :: 0 <= i < |v.grid.tiles| ==>
              AddAll(v, es).grid.tiles[i] ==
              if EntranceIndex(es, i % v.grid.stride, i / v.grid.stride) != -1 then Other else v.grid.tiles[i]
    decreases |es|
  {
    if |es| > 0 {
      var e := es[|es| - 1];
      var pre := es[..|es| - 1];
      assert es == pre + [e];
      AddAllEffect(v, pre);
      var u := AddAll(v, pre);
      var s := v.grid.stride;
      var n := u.grid.ToIndex(e.GridPosition.X, e.GridPosition.Y);
      forall i | 0 <= i < |v.grid.tiles|
        ensures AddAll(v, es).grid.tiles[i] == if EntranceIndex(es, i % s, i / s) != -1 then Other else v.grid.tiles[i]
      {
        EntranceIndexAppend(pre, e, i % s, i / s);
        PositionOfIndex(v.grid, i);
        if At(e, i % s, i / s) {
          assert n == i;
        }
      }
    }
  }

  predicate RectsInt32(rs: seq<Rectangle>)
  {
    forall k :: 0 <= k < |rs| ==> IsInt32(rs[k].X()) && IsInt32(rs[k].Y()) && IsInt32(rs[k].XX()) && IsInt32(rs[k].YY())
  }

  predicate EntrancesInt32(es: seq<Entrance>)
  {
    forall k :: 0 <= k < |es| ==> IsInt32(es[k].GridPosition.X) && IsInt32(es[k].GridPosition.Y)
  }

  /** Where the attributes of a `<rect>` element are found. */
  lemma RectAttributes(r: Rectangle)
    ensures Attr(RectElement(r), "x") == Some(DecimalString(r.X()))
    ensures Attr(RectElement(r), "y") == Some(DecimalString(r.Y()))
    ensures Attr(RectElement(r), "xx") == Some(DecimalString(r.XX()))
    ensures Attr(RectElement(r), "yy") == Some(DecimalString(r.YY()))
  {
    var a := RectElement(r).attributes;
    LookupFour(a[0], a[1], a[2], a[3], "x");
    LookupFour(a[0], a[1], a[2], a[3], "y");
    LookupFour(a[0], a[1], a[2], a[3], "xx");
    LookupFour(a[0], a[1], a[2], a[3], "yy");
  }

  lemma RectRead(v: FloorView, r: Rectangle)
    requires v.grid.Valid() && IsInt32(r.X()) && IsInt32(r.Y()) && IsInt32(r.XX()) && IsInt32(r.YY())
    ensures ReadRect(v, RectElement(r)) == (v.(grid := v.grid.SetArea(r.X(), r.Y(), r.XX(), r.YY(), Unavailable)), Done)
  {
    RectAttributes(r);
    ParseDecimalString(r.X());
    ParseDecimalString(r.Y());
    ParseDecimalString(r.XX());
    ParseDecimalString(r.YY());
  }

  lemma EntranceRead(v: FloorView, e: Entrance)
    requires IsInt32(e.GridPosition.X) && IsInt32(e.GridPosition.Y)
    ensures ReadEntrance(v, EntranceElement(e)) ==
            (v.WithEntrance(e.GridPosition.X, e.GridPosition.Y, e.Type, e.Direction), Done)
  {
    var c := EntranceElement(e);
    LookupFour(c.attributes[0], c.attributes[1], c.attributes[2], c.attributes[3], "x");
    LookupFour(c.attributes[0], c.attributes[1], c.attributes[2], c.attributes[3], "y");
    LookupFour(c.attributes[0], c.attributes[1], c.attributes[2], c.attributes[3], "type");
    LookupFour(c.attributes[0], c.attributes[1], c.attributes[2], c.attributes[3], "direction");
    ParseDecimalString(e.GridPosition.X);
    ParseDecimalString(e.GridPosition.Y);
    ParseTypeNameOfName(e.Type);
    ParseNameOfName(e.Direction);
  }

  /** Reading the `<rect>` elements of a list of rectangles sets each of them Unavailable, in order. */
  lemma {:induction false} ReadRectsOfRects(v: FloorView, rs: seq<Rectangle>)
    requires v.grid.Valid() && RectsInt32(rs)
    ensures ReadRects(v, RectElements(rs)) == (v.(grid := SetAll(v.grid, rs, Unavailable)), Done)
    decreases |rs|
  {
    if |rs| > 0 {
      assert RectsInt32(rs[..|rs| - 1]);
      ReadRectsOfRects(v, rs[..|rs| - 1]);
      ReadRectsStep(v, rs);
    } else {
      assert RectElements(rs) == [];
    }
  }

  /** One more rectangle read after the others. */
  lemma ReadRectsStep(v: FloorView, rs: seq<Rectangle>)
    requires v.grid.Valid() && RectsInt32(rs) && |rs| > 0
    requires var pre := rs[..|rs| - 1];
             ReadRects(v, RectElements(pre)) == (v.(grid := SetAll(v.grid, pre, Unavailable)), Done)
    ensures ReadRects(v, RectElements(rs)) == (v.(grid := SetAll(v.grid, rs, Unavailable)), Done)
  {
    var pre, r := rs[..|rs| - 1], rs[|rs| - 1];
    var cs := RectElements(rs);
    RectElementsPrefix(rs);
    ReadRectsLast(v, cs);
    var u := v.(grid := SetAll(v.grid, pre, Unavailable));
    RectRead(u, r);
    SetAllSnoc(v.grid, pre, r, Unavailable);
    assert pre + [r] == rs;
  }

  /** The last element of `cs` is read after the others. */
  lemma ReadRectsLast(v: FloorView, cs: seq<Element>)
    requires v.grid.Valid() && |cs| > 0
    ensures ReadRects(v, cs) ==
            if ReadRects(v, cs[..|cs| - 1]).1 != Done then ReadRects(v, cs[..|cs| - 1])
            else ReadRect(ReadRects(v, cs[..|cs| - 1]).0, cs[|cs| - 1])
  {
  }

  lemma RectElementsPrefix(rs: seq<Rectangle>)
    requires |rs| > 0
    ensures RectElements(rs)[..|rs| - 1] == RectElements(rs[..|rs| - 1])
    ensures RectElements(rs)[|rs| - 1] == RectElement(rs[|rs| - 1])
  {
  }

  /** The runs `FindRectangles` reports lie inside the grid, so their coordinates fit an `int`. */
  lemma RunsInt32(g: GridView, t: FloorTileType)
    requires g.Valid() && g.Columns() <= MaxInt32 && g.Rows() <= MaxInt32
    ensures RectsInt32(g.FindRects(t, false))
  {
    FindRectsProperties(g, t, false);
  }

  /** A fresh floor with the subtracted bounds of `v` set, as the reader's `<subbounds>` leaves it. */
  function Subtracted(b: FloorView, v: FloorView): (r: FloorView)
    requires b.grid.Valid() && v.grid.Valid()
  {
    b.(grid := SetAll(b.grid, v.grid.FindRects(Unavailable, false), Unavailable))
  }

  /** Fits an `int`: the grid's dimensions and every entrance position. */
  predicate FloorInt32(v: FloorView)
  {
    v.grid.Columns() <= MaxInt32 && v.grid.Rows() <= MaxInt32 && EntrancesInt32(v.entrances)
  }

  /** The `<subbounds>` element read into `b` subtracts what `v` subtracts. */
  lemma SubboundsRead(b: FloorView, v: FloorView)
    requires b.grid.Valid() && v.grid.Valid() && FloorInt32(v)
    ensures ReadFloor(b, [SubboundsElement(v)]) == (Subtracted(b, v), Done)
  {
    var cs := [SubboundsElement(v)];
    assert cs[..0] == [];
    ReadFloorSnoc(b, cs, 0);
    assert cs[..1] == cs;
    RunsInt32(v.grid, Unavailable);
    ReadRectsOfRects(b, v.grid.FindRects(Unavailable, false));
    assert ReadFloorChild(b, cs[0]) == ReadRects(b, RectElements(v.grid.FindRects(Unavailable, false)));
  }

  /** After children that leave the floor at `u`, the `<entrance>` elements of `es` add those entrances. */
  lemma {:induction false} ReadEntrancesAfter(b: FloorView, pre: seq<Element>, u: FloorView, es: seq<Entrance>)
    requires b.grid.Valid() && ReadFloor(b, pre) == (u, Done) && EntrancesInt32(es)
    ensures ReadFloor(b, pre + EntranceElements(es)) == (AddAll(u, es), Done)
    decreases |es|
  {
    if |es| == 0 {
      assert pre + EntranceElements(es) == pre;
    } else {
      assert EntrancesInt32(es[..|es| - 1]);
      ReadEntrancesAfter(b, pre, u, es[..|es| - 1]);
      ReadEntrancesStep(b, pre, u, es);
    }
  }

  /** One more entrance read after the others. */
  lemma ReadEntrancesStep(b: FloorView, pre: seq<Element>, u: FloorView, es: seq<Entrance>)
    requires b.grid.Valid() && EntrancesInt32(es) && |es| > 0
    requires ReadFloor(b, pre + EntranceElements(es[..|es| - 1])) == (AddAll(u, es[..|es| - 1]), Done)
    ensures ReadFloor(b, pre + EntranceElements(es)) == (AddAll(u, es), Done)
  {
    var cs := pre + EntranceElements(es);
    var init, e := es[..|es| - 1], es[|es| - 1];
    EntranceElementsLast(pre, es);
    ReadFloorLast(b, cs);
    EntranceRead(AddAll(u, init), e);
  }

  /** The last element of `cs` is read after the others. */
  lemma ReadFloorLast(v: FloorView, cs: seq<Element>)
    requires v.grid.Valid() && |cs| > 0
    ensures ReadFloor(v, cs) ==
            if ReadFloor(v, cs[..|cs| - 1]).1 != Done then ReadFloor(v, cs[..|cs| - 1])
            else ReadFloorChild(ReadFloor(v, cs[..|cs| - 1]).0, cs[|cs| - 1])
  {
  }

  lemma EntranceElementsLast(pre: seq<Element>, es: seq<Entrance>)
    requires |es| > 0
    ensures var cs := pre + EntranceElements(es);
            cs[..|cs| - 1] == pre + EntranceElements(es[..|es| - 1]) && cs[|cs| - 1] == EntranceElement(es[|es| - 1])
  {
    var cs := pre + EntranceElements(es);
    assert cs[..|cs| - 1] == pre + EntranceElements(es)[..|es| - 1];
  }

  /** What the reader makes of the `<floor>` element of `v` on a fresh floor `b`. */
  lemma ReadFloorOfElement(b: FloorView, v: FloorView)
    requires b.grid.Valid() && v.grid.Valid() && FloorInt32(v)
    ensures ReadFloor(b, FloorElement(v).children) == (AddAll(Subtracted(b, v), v.entrances), Done)
  {
    SubboundsRead(b, v);
    ReadEntrancesAfter(b, [SubboundsElement(v)], Subtracted(b, v), v.entrances);
  }

  /** The floor the reader rebuilds from the description of `v`, on a `rows` by `columns` grid. */
  function Restored(v: FloorView, rows: nat, columns: nat): (r: FloorView)
    requires columns > 0 && v.grid.Valid()
    ensures r.grid.Valid() && r.rooms == []
  {
    ProductDivisible(rows, columns);
    AddAll(Subtracted(EmptyFloor(rows * columns, columns), v), v.entrances)
  }

  /** The floor list after the first `n` `<floor>` elements. */
  function Partial(vs: seq<FloorView>, rows: nat, columns: nat, n: nat): (r: seq<FloorView>)
    requires columns > 0 && GridsValid(vs)
    ensures |r| == |vs| && GridsValid(r)
  {
    ProductDivisible(rows, columns);
    var blank := EmptyFloor(rows * columns, columns);
    assert blank.grid.Valid();
    var r := seq(|vs|, k requires 0 <= k < |vs| => if k < n then Restored(vs[k], rows, columns) else blank);
    assert forall k :: 0 <= k < |r| ==> r[k] == if k < n then Restored(vs[k], rows, columns) else blank;
    r
  }

  predicate AllInt32(vs: seq<FloorView>)
  {
    forall k :: 0 <= k < |vs| ==> FloorInt32(vs[k])
  }

  lemma {:induction false} ReadFloorListPrefix(vs: seq<FloorView>, rows: nat, columns: nat, n: nat)
    requires columns > 0 && GridsValid(vs) && AllInt32(vs) && n <= |vs|
    ensures ReadFloorList(EmptyFloors(|vs|, rows, columns), 0, FloorElements(vs)[..n]) ==
            (Partial(vs, rows, columns, n), n, Done)
    decreases n
  {
    var blank := EmptyFloors(|vs|, rows, columns);
    if n == 0 {
      assert FloorElements(vs)[..0] == [];
      assert Partial(vs, rows, columns, 0) == blank;
    } else {
      ReadFloorListPrefix(vs, rows, columns, n - 1);
      var es := FloorElements(vs);
      ReadFloorListSnoc(blank, 0, es, n - 1);
      assert es[n - 1] == FloorElement(vs[n - 1]);
      var before := Partial(vs, rows, columns, n - 1);
      FloorListStepFloor(before, n - 1, es[n - 1]);
      ProductDivisible(rows, columns);
      ReadFloorOfElement(before[n - 1], vs[n - 1]);
      assert before[n - 1 := Restored(vs[n - 1], rows, columns)] == Partial(vs, rows, columns, n);
    }
  }

  /** Where each attribute of the writer's root element is found. */
  lemma RootAttributes(s: Settings, count: int, realText: real -> string)
    ensures var a := BuildingAttributes(s, count, realText);
            Lookup(a, "floorcount") == Some(DecimalString(count)) &&
            Lookup(a, "floorwidth") == Some(realText(s.width)) &&
            Lookup(a, "floorheight") == Some(realText(s.height)) &&
            Lookup(a, "gridresolution") == Some(realText(s.resolution)) &&
            Lookup(a, "seed") == (if s.seed != 0 then Some(DecimalString(s.seed)) else None) &&
            Lookup(a, "constraints") == (if HasConstraints(s.constraints) then s.constraints else None)
  {
    var head := [Attribute("xmlns", "InputSchema")];
    var seed := if s.seed != 0 then [Attribute("seed", DecimalString(s.seed))] else [];
    var cons := if HasConstraints(s.constraints) then [Attribute("constraints", s.constraints.value)] else [];
    var a, b, c, d := Attribute("floorcount", DecimalString(count)), Attribute("floorwidth", realText(s.width)),
                      Attribute("floorheight", realText(s.height)), Attribute("gridresolution", realText(s.resolution));
    assert [a] + [b] + [c] + [d] == [a, b, c, d];
    assert BuildingAttributes(s, count, realText) == head + seed + cons + [a, b, c, d];
    RootLookup(head, seed, cons, a, b, c, d, "floorcount");
    LookupFour(a, b, c, d, "floorcount");
    RootLookup(head, seed, cons, a, b, c, d, "floorwidth");
    LookupFour(a, b, c, d, "floorwidth");
    RootLookup(head, seed, cons, a, b, c, d, "floorheight");
    LookupFour(a, b, c, d, "floorheight");
    RootLookup(head, seed, cons, a, b, c, d, "gridresolution");
    LookupFour(a, b, c, d, "gridresolution");
    RootLookup(head, seed, cons, a, b, c, d, "seed");
    LookupFour(a, b, c, d, "seed");
    RootLookup(head, seed, cons, a, b, c, d, "constraints");
    LookupFour(a, b, c, d, "constraints");
  }

  lemma RootLookup(head: seq<Attribute>, seed: seq<Attribute>, cons: seq<Attribute>,
                   a: Attribute, b: Attribute, c: Attribute, d: Attribute, name: string)
    requires |head| == 1 && |seed| <= 1 && |cons| <= 1
    ensures Lookup(head + seed + cons + [a, b, c, d], name) ==
            if head[0].name == name then Some(head[0].value)
            else if |seed| == 1 && seed[0].name == name then Some(seed[0].value)
            else if |cons| == 1 && cons[0].name == name then Some(cons[0].value)
            else Lookup([a, b, c, d], name)
  {
    var tail := [a, b, c, d];
    AppendAssoc(head + seed, cons, tail);
    AppendAssoc(head, seed, cons + tail);
    LookupOptional(head, seed + (cons + tail), name);
    LookupOptional(seed, cons + tail, name);
    LookupOptional(cons, tail, name);
  }

  /** The lookup past a list of at most one attribute. */
  lemma LookupOptional(x: seq<Attribute>, rest: seq<Attribute>, name: string)
    requires |x| <= 1
    ensures Lookup(x + rest, name) == if |x| == 1 && x[0].name == name then Some(x[0].value) else Lookup(rest, name)
  {
    if |x| == 1 {
      assert x + rest == [x[0]] + rest;
      LookupCons(x[0], rest, name);
    } else {
      assert x + rest == rest;
    }
  }

  /** Reading back a description: every floor comes back with its entrances in order, no rooms, and its
      Unavailable tiles (the tiles of the entrances turned Other, all other tiles Vacant); the seed and the
      dimensions come back, and the constraint set name unless it was empty; no error message is set. */
  lemma DescriptionRoundTrip(s: Settings, vs: seq<FloorView>, rows: nat, columns: nat,
                             realText: real -> string, readReal: string -> Result<real>)
    requires Exportable(vs) && GridsValid(vs) && AllInt32(vs) && IsInt32(|vs|) && IsInt32(s.seed)
    requires columns > 0 && forall k :: 0 <= k < |vs| ==> vs[k].grid.stride == columns
    requires readReal(realText(s.width)) == Ok(s.width) && readReal(realText(s.height)) == Ok(s.height)
    requires readReal(realText(s.resolution)) == Ok(s.resolution)
    ensures ReadBuilding(DescriptionTree(s, vs, realText), rows, columns, readReal) ==
            (Ok(Some(Loaded(s.(constraints := if HasConstraints(s.constraints) then s.constraints else None),
                            Partial(vs, rows, columns, |vs|)))), None)
  {
    var settings := s.(constraints := if HasConstraints(s.constraints) then s.constraints else None);
    HeaderRead(s, vs, rows, columns, realText, readReal);
    FloorplansList(vs, rows, columns);
    RestoredValid(vs, rows, columns);
  }

  /** The root's attributes read back as written, so the reader goes on to the floors with the settings. */
  lemma HeaderRead(s: Settings, vs: seq<FloorView>, rows: nat, columns: nat,
                   realText: real -> string, readReal: string -> Result<real>)
    requires IsInt32(|vs|) && IsInt32(s.seed) && columns > 0
    requires readReal(realText(s.width)) == Ok(s.width) && readReal(realText(s.height)) == Ok(s.height)
    requires readReal(realText(s.resolution)) == Ok(s.resolution)
    ensures ReadBuilding(DescriptionTree(s, vs, realText), rows, columns, readReal) ==
            ReadFloors(EmptyFloors(|vs|, rows, columns),
                       s.(constraints := if HasConstraints(s.constraints) then s.constraints else None),
                       DescriptionTree(s, vs, realText).children)
  {
    RootAttributes(s, |vs|, realText);
    NewBuildingRead(s, vs, rows, columns, realText);
  }

  /** `NewBuilding` when nothing throws, with `seed` the parsed seed (0 when absent). */
  lemma NewBuildingOk(root: Element, width: real, height: real, resolution: real, rows: nat, columns: nat, count: int, seed: int)
    requires Attr(root, "floorcount").Some? && ParseInt(Attr(root, "floorcount").value) == Ok(count)
    requires count <= 0 || columns > 0
    requires Attr(root, "seed").Some? ==> ParseInt(Attr(root, "seed").value) == Ok(seed)
    requires Attr(root, "seed").None? ==> seed == 0
    ensures NewBuilding(root, width, height, resolution, rows, columns) ==
            Ok((EmptyFloors(if count > 0 then count else 0, rows, columns), Settings(seed, Attr(root, "constraints"), width, height, resolution)))
  {
  }

  /** The floors and parameters created from the writer's root element. */
  lemma NewBuildingRead(s: Settings, vs: seq<FloorView>, rows: nat, columns: nat, realText: real -> string)
    requires IsInt32(|vs|) && IsInt32(s.seed) && columns > 0
    ensures Attr(DescriptionTree(s, vs, realText), "floorcount").Some?
    ensures NewBuilding(DescriptionTree(s, vs, realText), s.width, s.height, s.resolution, rows, columns) ==
            Ok((EmptyFloors(|vs|, rows, columns), s.(constraints := if HasConstraints(s.constraints) then s.constraints else None)))
  {
    var root := DescriptionTree(s, vs, realText);
    RootAttributes(s, |vs|, realText);
    assert root.attributes == BuildingAttributes(s, |vs|, realText);
    ParseDecimalString(|vs|);
    if s.seed != 0 { ParseDecimalString(s.seed); }
    NewBuildingOk(root, s.width, s.height, s.resolution, rows, columns, |vs|, s.seed);
    assert Attr(root, "constraints") == if HasConstraints(s.constraints) then s.constraints else None;
  }

  /** The fold over the root's children restores every floor and counts them all. */
  lemma FloorplansList(vs: seq<FloorView>, rows: nat, columns: nat)
    requires Exportable(vs) && GridsValid(vs) && AllInt32(vs)
    requires columns > 0 && forall k :: 0 <= k < |vs| ==> vs[k].grid.stride == columns
    ensures ReadFloorplans(EmptyFloors(|vs|, rows, columns), 0, [Element("floorplans", [], FloorElements(vs))]) ==
            (Partial(vs, rows, columns, |vs|), |vs|, Done)
  {
    var cs := [Element("floorplans", [], FloorElements(vs))];
    var blank := EmptyFloors(|vs|, rows, columns);
    ReadFloorListPrefix(vs, rows, columns, |vs|);
    assert FloorElements(vs)[..|vs|] == FloorElements(vs);
    assert cs[..0] == [] && cs[..1] == cs;
    ReadFloorplansSnoc(blank, 0, cs, 0);
  }

  /** Every floor read back is as valid as the one written. */
  lemma RestoredValid(vs: seq<FloorView>, rows: nat, columns: nat)
    requires Exportable(vs) && GridsValid(vs)
    requires columns > 0 && forall k :: 0 <= k < |vs| ==> vs[k].grid.stride == columns
    ensures AllValid(Partial(vs, rows, columns, |vs|))
  {
    var restored := Partial(vs, rows, columns, |vs|);
    ProductDivisible(rows, columns);
    forall k | 0 <= k < |vs| ensures restored[k].Valid() {
      AddAllEffect(Subtracted(EmptyFloor(rows * columns, columns), vs[k]), vs[k].entrances);
    }
  }

  /** The tiles and entrances of a restored floor, tile by tile. */
  lemma RestoredTiles(v: FloorView, rows: nat, columns: nat)
    requires columns > 0 && v.grid.Valid() && v.grid.stride == columns && |v.grid.tiles| == rows * columns
    ensures Restored(v, rows, columns).entrances == v.entrances
    ensures forall i :: 0 <= i < |v.grid.tiles| ==>
              Restored(v, rows, columns).grid.tiles[i] ==
              if EntranceIndex(v.entrances, i % columns, i / columns) != -1 then Other
              else if v.grid.tiles[i] == Unavailable then Unavailable else Vacant
  {
    ProductDivisible(rows, columns);
    var b := EmptyFloor(rows * columns, columns);
    FindRectsRoundTrip(v.grid, b.grid, Unavailable);
    AddAllEffect(Subtracted(b, v), v.entrances);
  }
}

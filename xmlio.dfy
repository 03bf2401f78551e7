/** `BuildingXmlIo`, the building-description half of the class in EditorV2/Editor/IO/BuildingXmlIo.cs (its
    writer is also, line for line, the one in BuildGen/Common/IO/BuildingXmlIo.cs): the writer concatenates
    the description text in loops over the floors, rectangles and entrances; the reader walks an element
    tree and fills a fresh `Building`. Each method is proved equal to the functions of module
    `BuildingDescriptions`, whose round trip is proved there. */
module XmlIo {
  import opened Wrappers
  import opened Directions
  import opened Points
  import opened Rectangles
  import opened Grids
  import opened Entrances
  import opened Floors
  import opened Buildings
  import opened Decimals
  import opened XmlTrees
  import opened BuildingDescriptions

  /** The four attribute texts of a `<rect>` make up its format string. */
  lemma RectLine(x: string, y: string, xx: string, yy: string)
    ensures "<rect" + (AttributeText(Attribute("x", x)) + AttributeText(Attribute("y", y)) +
                       AttributeText(Attribute("xx", xx)) + AttributeText(Attribute("yy", yy))) + "/>\n" ==
            "<rect x=\"" + x + "\" y=\"" + y + "\" xx=\"" + xx + "\" yy=\"" + yy + "\"/>\n"
  {
    var A, B, C, D := AttributeText(Attribute("x", x)), AttributeText(Attribute("y", y)),
                      AttributeText(Attribute("xx", xx)), AttributeText(Attribute("yy", yy));
    assert "<rect" + (A + B + C + D) + "/>\n" == "<rect" + A + B + C + D + "/>\n";
    assert "<rect" + A == "<rect x=\"" + x + "\"";
    assert "<rect" + A + B == "<rect x=\"" + x + "\" y=\"" + y + "\"";
    assert "<rect" + A + B + C == "<rect x=\"" + x + "\" y=\"" + y + "\" xx=\"" + xx + "\"";
  }

  /** The writer's text for one `<rect>`, as its format string spells it. */
  lemma RectText(r: Rectangle)
    ensures Render(RectElement(r)) ==
            "<rect x=\"" + DecimalString(r.X()) + "\" y=\"" + DecimalString(r.Y()) + "\" xx=\"" + DecimalString(r.XX()) +
            "\" yy=\"" + DecimalString(r.YY()) + "\"/>\n"
  {
    var c := RectElement(r);
    AttributesFour(c.attributes[0], c.attributes[1], c.attributes[2], c.attributes[3]);
    assert c.attributes == [c.attributes[0], c.attributes[1], c.attributes[2], c.attributes[3]];
    RectLine(DecimalString(r.X()), DecimalString(r.Y()), DecimalString(r.XX()), DecimalString(r.YY()));
  }

  /** The four attribute texts of an `<entrance>` make up its format string. */
  lemma EntranceLine(x: string, y: string, t: string, d: string)
    ensures "<entrance" + (AttributeText(Attribute("x", x)) + AttributeText(Attribute("y", y)) +
                           AttributeText(Attribute("type", t)) + AttributeText(Attribute("direction", d))) + "/>\n" ==
            "<entrance x=\"" + x + "\" y=\"" + y + "\" type=\"" + t + "\" direction=\"" + d + "\"/>\n"
  {
    var A, B, C, D := AttributeText(Attribute("x", x)), AttributeText(Attribute("y", y)),
                      AttributeText(Attribute("type", t)), AttributeText(Attribute("direction", d));
    assert "<entrance" + (A + B + C + D) + "/>\n" == "<entrance" + A + B + C + D + "/>\n";
    assert "<entrance" + A == "<entrance x=\"" + x + "\"";
    assert "<entrance" + A + B == "<entrance x=\"" + x + "\" y=\"" + y + "\"";
    assert "<entrance" + A + B + C == "<entrance x=\"" + x + "\" y=\"" + y + "\" type=\"" + t + "\"";
  }

  /** The writer's text for one `<entrance>`: the enum values are written by name. */
  lemma EntranceText(e: Entrance)
    ensures Render(EntranceElement(e)) ==
            "<entrance x=\"" + DecimalString(e.GridPosition.X) + "\" y=\"" + DecimalString(e.GridPosition.Y) +
            "\" type=\"" + TypeName(e.Type) + "\" direction=\"" + Name(e.Direction) + "\"/>\n"
  {
    var c := EntranceElement(e);
    AttributesFour(c.attributes[0], c.attributes[1], c.attributes[2], c.attributes[3]);
    assert c.attributes == [c.attributes[0], c.attributes[1], c.attributes[2], c.attributes[3]];
    EntranceLine(DecimalString(e.GridPosition.X), DecimalString(e.GridPosition.Y), TypeName(e.Type), Name(e.Direction));
  }

  /** An element without attributes is written between an opening and a closing tag. */
  lemma Enclosed(name: string, open: string, close: string, children: seq<Element>)
    requires open == "<" + name + ">\n" && close == "</" + name + ">\n"
    ensures Render(Element(name, [], children)) == open + RenderAll(children) + close
  {
    assert AttributesText([]) == "";
  }

  lemma Regroup(a: string, b: string, c: string, d: string)
    ensures a + (b + c) + d == a + b + c + d
  {
  }

  /** The text of a `<floor>`, in the writer's pieces. */
  lemma FloorText(v: FloorView)
    ensures Render(FloorElement(v)) ==
            "<floor>\n" + ("<subbounds>\n" + RenderAll(RectElements(v.grid.FindRects(Unavailable, false))) + "</subbounds>\n") +
            RenderAll(EntranceElements(v.entrances)) + "</floor>\n"
  {
    FloorTextOf(RectElements(v.grid.FindRects(Unavailable, false)), EntranceElements(v.entrances));
  }

  /** The same for any subtracted rectangles and entrances. */
  lemma FloorTextOf(rects: seq<Element>, es: seq<Element>)
    ensures Render(Element("floor", [], [Element("subbounds", [], rects)] + es)) ==
            "<floor>\n" + ("<subbounds>\n" + RenderAll(rects) + "</subbounds>\n") + RenderAll(es) + "</floor>\n"
  {
    var sub := Element("subbounds", [], rects);
    Enclosed("floor", "<floor>\n", "</floor>\n", [sub] + es);
    Enclosed("subbounds", "<subbounds>\n", "</subbounds>\n", rects);
    RenderAllAppend([sub], es);
    assert [sub][..0] == [];
    assert RenderAll([sub]) == Render(sub);
    Regroup("<floor>\n", Render(sub), RenderAll(es), "</floor>\n");
  }

  /** ` name="value"` after `text`, as the writer concatenates each attribute of the root tag. */
  function WithAttribute(text: string, name: string, value: string): string
  {
    text + " " + name + "=\"" + value + "\""
  }

  /** Writing an attribute after a tag's text appends it to the tag's attributes. */
  lemma AttributeStep(text: string, attributes: seq<Attribute>, name: string, value: string)
    requires text == "<building" + AttributesText(attributes)
    ensures WithAttribute(text, name, value) == "<building" + AttributesText(attributes + [Attribute(name, value)])
  {
    AttributesSnoc(attributes, Attribute(name, value));
  }

  /** The building-level values the writer puts in the root element. */
  function SettingsOf(bld: Building): Settings
    reads bld
  {
    Settings(bld.Seed, bld.ConstraintSet, bld.Width, bld.Height, bld.Resolution)
  }

  /** Every floor of a well-formed building has a valid grid. */
  lemma WellformedGrids(bld: Building)
    requires bld.Wellformed()
    ensures GridsValid(bld.Views())
  {
  }

  /** The reader's result and the one of the value-level reader agree on throwing, on the exception, and
      on returning null. */
  predicate SameOutcome<T, U>(r: Result<Option<T>>, spec: Result<Option<U>>)
  {
    (r.Throws? <==> spec.Throws?) && (r.Throws? ==> r.exception == spec.exception) &&
    (r.Ok? ==> r.value.Some? == spec.value.Some?)
  }

  class BuildingXmlIo {
    /** The message of the last failure, empty at first. */
    var ErrMessage: string

    constructor ()
      ensures ErrMessage == ""
    {
      ErrMessage := "";
    }

    /** The text of one floor: its subtracted bounds, then its entrances. */
    method WriteFloor(floor: Floor) returns (text: string)
      requires floor.Wellformed()
      ensures text == Render(FloorElement(floor.View()))
    {
      var subbounds := floor.Grid.FindRectangles(Unavailable);
      var rects := WriteRects(subbounds);
      var entrances := WriteEntrances(floor.Entrances);
      text := "<floor>\n" + ("<subbounds>\n" + rects + "</subbounds>\n") + entrances + "</floor>\n";
      FloorText(floor.View());
    }

    /** One `<rect>` line per rectangle, in order. */
    method WriteRects(subbounds: seq<Rectangle>) returns (text: string)
      ensures text == RenderAll(RectElements(subbounds))
    {
      ghost var rs := RectElements(subbounds);
      text := "";
      var j := 0;
      while j < |subbounds|
        invariant 0 <= j <= |subbounds|
        invariant text == RenderAll(rs[..j])
      {
        var rect := subbounds[j];
        RectText(rect);
        RenderAllSnoc(rs, j);
        text := text + ("<rect x=\"" + DecimalString(rect.X()) + "\" y=\"" + DecimalString(rect.Y()) + "\" xx=\"" +
                        DecimalString(rect.XX()) + "\" yy=\"" + DecimalString(rect.YY()) + "\"/>\n");
        j := j + 1;
      }
      assert rs[..j] == rs;
    }

    /** One `<entrance>` line per entrance, in list order. */
    method WriteEntrances(entrances: seq<Entrance>) returns (text: string)
      ensures text == RenderAll(EntranceElements(entrances))
    {
      ghost var es := EntranceElements(entrances);
      text := "";
      var k := 0;
      while k < |entrances|
        invariant 0 <= k <= |entrances|
        invariant text == RenderAll(es[..k])
      {
        var entrance := entrances[k];
        EntranceText(entrance);
        RenderAllSnoc(es, k);
        text := text + ("<entrance x=\"" + DecimalString(entrance.GridPosition.X) + "\" y=\"" +
                        DecimalString(entrance.GridPosition.Y) + "\" type=\"" + TypeName(entrance.Type) +
                        "\" direction=\"" + Name(entrance.Direction) + "\"/>\n");
        k := k + 1;
      }
      assert es[..k] == es;
    }

    /** `ExportBuildingDescription`: None (null) with the error message for a missing building, a building
        without floors or an invalid one; otherwise the document of the building's description tree. */
    method ExportBuildingDescription(bld: Building?, realText: real -> string) returns (xml: Option<string>)
      requires bld != null ==> bld.Wellformed()
      modifies this`ErrMessage
      ensures bld == null || !Exportable(old(bld.Views())) ==> xml == None && ErrMessage == DescriptionError
      ensures bld != null && Exportable(old(bld.Views())) ==>
                xml == Some(Document(DescriptionTree(old(SettingsOf(bld)), old(bld.Views()), realText))) &&
                ErrMessage == old(ErrMessage)
    {
      if bld == null {
        ErrMessage := DescriptionError;
        return None;
      }
      ghost var vs := bld.Views();
      assert |vs| == |bld.Floors|;
      if |bld.Floors| == 0 || !bld.Valid() {
        assert !Exportable(vs);
        ErrMessage := DescriptionError;
        return None;
      }
      var text := Describe(bld, realText);
      return Some(text);
    }

    /** The text the writer concatenates for a building that passes the guard. */
    method Describe(bld: Building, realText: real -> string) returns (xml: string)
      requires bld.Wellformed()
      ensures xml == Document(DescriptionTree(SettingsOf(bld), bld.Views(), realText))
    {
      var root := WriteRootTag(bld, realText);
      var floors := WriteFloors(bld);
      xml := Header() + root + ">\n" + ("<floorplans>\n" + floors + "</floorplans>\n") + "</building>";
      DocumentText(SettingsOf(bld), bld.Views(), realText);
    }

    /** The opening tag of `<building>` up to its `>`: the optional attributes only when the source writes them. */
    method WriteRootTag(bld: Building, realText: real -> string) returns (text: string)
      ensures text == "<building" + AttributesText(BuildingAttributes(SettingsOf(bld), |bld.Floors|, realText))
    {
      ghost var s := SettingsOf(bld);
      text := "<building";
      ghost var attributes: seq<Attribute> := [];
      assert text == "<building" + AttributesText(attributes);
      AttributeStep(text, attributes, "xmlns", "InputSchema");
      text := WithAttribute(text, "xmlns", "InputSchema");
      attributes := attributes + [Attribute("xmlns", "InputSchema")];
      if bld.Seed != 0 {
        AttributeStep(text, attributes, "seed", DecimalString(bld.Seed));
        text := WithAttribute(text, "seed", DecimalString(bld.Seed));
      } else {
        assert attributes + SeedAttribute(s) == attributes;
      }
      attributes := attributes + SeedAttribute(s);
      if bld.ConstraintSet.Some? && bld.ConstraintSet.value != "" {
        AttributeStep(text, attributes, "constraints", bld.ConstraintSet.value);
        text := WithAttribute(text, "constraints", bld.ConstraintSet.value);
      } else {
        assert attributes + ConstraintsAttribute(s) == attributes;
      }
      attributes := attributes + ConstraintsAttribute(s);
      AttributeStep(text, attributes, "floorcount", DecimalString(|bld.Floors|));
      text := WithAttribute(text, "floorcount", DecimalString(|bld.Floors|));
      attributes := attributes + [Attribute("floorcount", DecimalString(|bld.Floors|))];
      AttributeStep(text, attributes, "floorwidth", realText(bld.Width));
      text := WithAttribute(text, "floorwidth", realText(bld.Width));
      attributes := attributes + [Attribute("floorwidth", realText(bld.Width))];
      AttributeStep(text, attributes, "floorheight", realText(bld.Height));
      text := WithAttribute(text, "floorheight", realText(bld.Height));
      attributes := attributes + [Attribute("floorheight", realText(bld.Height))];
      AttributeStep(text, attributes, "gridresolution", realText(bld.Resolution));
      text := WithAttribute(text, "gridresolution", realText(bld.Resolution));
      attributes := attributes + [Attribute("gridresolution", realText(bld.Resolution))];
      assert [] + [Attribute("xmlns", "InputSchema")] == [Attribute("xmlns", "InputSchema")];
    }

    /** The `<floor>` texts of all floors, in order. */
    method WriteFloors(bld: Building) returns (text: string)
      requires bld.Wellformed()
      ensures text == RenderAll(FloorElements(bld.Views()))
    {
      ghost var fs := FloorElements(bld.Views());
      text := "";
      var k := 0;
      while k < |bld.Floors|
        invariant 0 <= k <= |bld.Floors|
        invariant text == RenderAll(fs[..k])
      {
        var floorText := WriteFloor(bld.Floors[k]);
        RenderAllSnoc(fs, k);
        text := text + floorText;
        k := k + 1;
      }
      assert fs[..k] == fs;
    }

    // -------------------------------------------------------------------------------------------------
    // The reader.

    /** `ParseSubtractedBounds`: every `<rect>` child with all four attributes marks its area Unavailable;
        `int.Parse` may throw, and the helper otherwise always succeeds. */
    method ParseSubtractedBounds(element: Element, floor: Floor) returns (st: Status)
      requires floor.Wellformed()
      modifies floor.Grid.tiles
      ensures (floor.View(), st) == ReadRects(old(floor.View()), element.children)
    {
      ghost var v0 := floor.View();
      var cs := element.children;
      var n := 0;
      while n < |cs|
        invariant 0 <= n <= |cs|
        invariant ReadRects(v0, cs[..n]) == (floor.View(), Done)
      {
        ReadRectsSnoc(v0, cs, n);
        var s := ParseRect(cs[n], floor);
        if s != Done {
          ReadRectsStops(v0, cs, n + 1);
          return s;
        }
        n := n + 1;
      }
      assert cs[..n] == cs;
      return Done;
    }

    /** One child of `<subbounds>`: a complete `<rect>` marks its area, anything else is skipped. */
    method ParseRect(c: Element, floor: Floor) returns (st: Status)
      requires floor.Wellformed()
      modifies floor.Grid.tiles
      ensures (floor.View(), st) == ReadRect(old(floor.View()), c)
    {
      var x, y, xx, yy := Attr(c, "x"), Attr(c, "y"), Attr(c, "xx"), Attr(c, "yy");
      if c.name != "rect" || x.None? || y.None? || xx.None? || yy.None? {
        return Done;
      }
      var px := ParseInt(x.value);
      if px.Throws? {
        return Thrown(px.exception);
      }
      var py := ParseInt(y.value);
      if py.Throws? {
        return Thrown(py.exception);
      }
      var pxx := ParseInt(xx.value);
      if pxx.Throws? {
        return Thrown(pxx.exception);
      }
      var pyy := ParseInt(yy.value);
      if pyy.Throws? {
        return Thrown(pyy.exception);
      }
      floor.Grid.SetArea(px.value, py.value, pxx.value, pyy.value, Unavailable);
      return Done;
    }

    /** `ParseEntrance`: false when an attribute is missing; otherwise the parsed entrance is added. */
    method ParseEntrance(element: Element, floor: Floor) returns (st: Status)
      modifies floor`Entrances, floor.Grid.tiles
      ensures (floor.View(), st) == ReadEntrance(old(floor.View()), element)
    {
      var x, y, t, d := Attr(element, "x"), Attr(element, "y"), Attr(element, "type"), Attr(element, "direction");
      if x.None? || y.None? || t.None? || d.None? {
        return Refused;
      }
      var px := ParseInt(x.value);
      if px.Throws? {
        return Thrown(px.exception);
      }
      var py := ParseInt(y.value);
      if py.Throws? {
        return Thrown(py.exception);
      }
      var kind := ParseTypeName(t.value);
      if kind.None? {
        return Thrown(ArgumentException);
      }
      var direction := ParseName(d.value);
      if direction.None? {
        return Thrown(ArgumentException);
      }
      floor.AddEntrance(px.value, py.value, kind.value, direction.value);
      return Done;
    }

    /** `ParseFloor`: the `subbounds` and `entrance` children in order, stopping at the first that fails. */
    method ParseFloor(element: Element, floor: Floor) returns (st: Status)
      requires floor.Wellformed()
      modifies floor`Entrances, floor.Grid.tiles
      ensures (floor.View(), st) == ReadFloor(old(floor.View()), element.children)
    {
      ghost var v0 := floor.View();
      var cs := element.children;
      var n := 0;
      while n < |cs|
        invariant 0 <= n <= |cs|
        invariant ReadFloor(v0, cs[..n]) == (floor.View(), Done)
      {
        ReadFloorSnoc(v0, cs, n);
        var s := ParseFloorChild(cs[n], floor);
        if s != Done {
          ReadFloorStops(v0, cs, n + 1);
          return s;
        }
        n := n + 1;
      }
      assert cs[..n] == cs;
      return Done;
    }

    /** One child of `<floor>`: the switch on its name. */
    method ParseFloorChild(c: Element, floor: Floor) returns (st: Status)
      requires floor.Wellformed()
      modifies floor`Entrances, floor.Grid.tiles
      ensures (floor.View(), st) == ReadFloorChild(old(floor.View()), c)
    {
      st := Done;
      if c.name == "subbounds" {
        st := ParseSubtractedBounds(c, floor);
      } else if c.name == "entrance" {
        st := ParseEntrance(c, floor);
      }
    }

    /** The `<floor>` children of one `<floorplans>` element, read into `bld.Floors[cur]`, `bld.Floors[cur + 1]`, ... */
    method ParseFloorList(bld: Building, cur: int, cs: seq<Element>) returns (next: int, st: Status)
      requires bld.Wellformed() && cur >= 0
      modifies bld.Floors`Entrances, bld.TileArrays()
      ensures bld.Wellformed()
      ensures bld.TileArrays() == old(bld.TileArrays())
      ensures (bld.Views(), next, st) == ReadFloorList(old(bld.Views()), cur, cs)
    {
      WellformedGrids(bld);
      ghost var vs0 := bld.Views();
      next := cur;
      var n := 0;
      while n < |cs|
        invariant 0 <= n <= |cs| && bld.Wellformed()
        invariant ReadFloorList(vs0, cur, cs[..n]) == (bld.Views(), next, Done)
        invariant bld.TileArrays() == old(bld.TileArrays())
      {
        ReadFloorListSnoc(vs0, cur, cs, n);
        var s;
        next, s := ParseFloorListChild(bld, next, cs[n]);
        if s != Done {
          ReadFloorListStops(vs0, cur, cs, n + 1);
          return next, s;
        }
        n := n + 1;
      }
      assert cs[..n] == cs;
      return next, Done;
    }

    /** One child of `<floorplans>`: a `<floor>` is read into `bld.Floors[k]`, an index past the last floor
        throws, and anything else is skipped. */
    method ParseFloorListChild(bld: Building, k: int, c: Element) returns (next: int, st: Status)
      requires bld.Wellformed() && k >= 0
      modifies bld.Floors`Entrances, bld.TileArrays()
      ensures bld.Wellformed()
      ensures bld.TileArrays() == old(bld.TileArrays())
      ensures old(GridsValid(bld.Views()))
      ensures (bld.Views(), next, st) == FloorListStep((old(bld.Views()), k, Done), c)
    {
      WellformedGrids(bld);
      ghost var vs := bld.Views();
      if c.name != "floor" {
        return k, Done;
      }
      if k >= |bld.Floors| {
        return k, Thrown(ArgumentOutOfRangeException);
      }
      st := ParseFloorAt(bld, k, c);
      FloorListStepFloor(vs, k, c);
      next := if st == Done then k + 1 else k;
    }

    /** `ParseFloor` on `bld.Floors[k]`, which leaves the other floors as they were. */
    method ParseFloorAt(bld: Building, k: int, c: Element) returns (st: Status)
      requires bld.Wellformed() && 0 <= k < |bld.Floors|
      modifies bld.Floors`Entrances, bld.TileArrays()
      ensures bld.Wellformed()
      ensures bld.TileArrays() == old(bld.TileArrays())
      ensures var vs := old(bld.Views());
              bld.Views() == vs[k := ReadFloor(vs[k], c.children).0] && st == ReadFloor(vs[k], c.children).1
    {
      var floor := bld.Floors[k];
      OthersApart(bld.Floors, k);
      label Before:
      st := ParseFloor(c, floor);
      bld.FloorWritten@Before(k);
    }

    /** The `<floorplans>` children of the root, continuing the floor index from one to the next. */
    method ParseFloorplans(bld: Building, cs: seq<Element>) returns (next: int, st: Status)
      requires bld.Wellformed()
      modifies bld.Floors`Entrances, bld.TileArrays()
      ensures bld.Wellformed()
      ensures bld.TileArrays() == old(bld.TileArrays())
      ensures (bld.Views(), next, st) == ReadFloorplans(old(bld.Views()), 0, cs)
    {
      WellformedGrids(bld);
      ghost var vs0 := bld.Views();
      next := 0;
      var n := 0;
      while n < |cs|
        invariant 0 <= n <= |cs| && bld.Wellformed()
        invariant ReadFloorplans(vs0, 0, cs[..n]) == (bld.Views(), next, Done)
        invariant bld.TileArrays() == old(bld.TileArrays())
      {
        var c := cs[n];
        ReadFloorplansSnoc(vs0, 0, cs, n);
        if c.name == "floorplans" {
          ghost var pv, pnext := bld.Views(), next;
          var s;
          next, s := ParseFloorList(bld, next, c.children);
          assert ReadFloorplans(vs0, 0, cs[..n + 1]) == ReadFloorList(pv, pnext, c.children);
          if s != Done {
            ReadFloorplansStops(vs0, 0, cs, n + 1);
            return next, s;
          }
        }
        n := n + 1;
      }
      assert cs[..n] == cs;
      return next, Done;
    }

    /** The second half of `ParseBuilding`: the floorplans, then the floor count and validity checks. */
    method ReadFloorsInto(bld: Building, cs: seq<Element>) returns (r: Result<Option<Building>>)
      requires bld.Wellformed()
      modifies this`ErrMessage, bld.Floors`Entrances, bld.TileArrays()
      ensures bld.Wellformed()
      ensures var spec := ReadFloors(old(bld.Views()), SettingsOf(bld), cs);
              SameOutcome(r, spec.0) && (r.Ok? && r.value.Some? ==> r.value.value == bld && spec.0 == Ok(Some(Loaded(SettingsOf(bld), bld.Views())))) &&
              ErrMessage == (if spec.1.Some? then spec.1.value else old(ErrMessage))
    {
      WellformedGrids(bld);
      ghost var vs0, settings := bld.Views(), SettingsOf(bld);
      var next, st := ParseFloorplans(bld, cs);
      ghost var vs1 := bld.Views();
      assert SettingsOf(bld) == settings && |bld.Floors| == |vs0|;
      assert ReadFloors(vs0, settings, cs) == Concluded((vs1, next, st), |vs0|, settings);
      r := Conclude(bld, next, st);
      assert bld.Views() == vs1 && SettingsOf(bld) == settings && |bld.Floors| == |vs0|;
    }

    /** The floor count check, which only sets the message, and the validity check. */
    method Conclude(bld: Building, next: int, st: Status) returns (r: Result<Option<Building>>)
      requires bld.Wellformed()
      modifies this`ErrMessage
      ensures var spec := Concluded((bld.Views(), next, st), |bld.Floors|, SettingsOf(bld));
              SameOutcome(r, spec.0) && (r.Ok? && r.value.Some? ==> r.value.value == bld && spec.0 == Ok(Some(Loaded(SettingsOf(bld), bld.Views())))) &&
              ErrMessage == (if spec.1.Some? then spec.1.value else old(ErrMessage))
    {
      if st.Thrown? {
        return Throws(st.exception);
      }
      if st == Refused {
        return Ok(None);
      }
      if next != |bld.Floors| {
        ErrMessage := CountMismatch(|bld.Floors|, next);
      }
      var valid := bld.Valid();
      if valid {
        return Ok(Some(bld));
      }
      ErrMessage := InvalidBuilding;
      return Ok(None);
    }

    /** `ParseBuilding`: null when a required attribute is missing; otherwise a new building with `rows` by
        `columns` floors, its parameters and the floorplans read in. */
    method ParseBuilding(element: Element, rows: nat, columns: nat, readReal: string -> Result<real>)
      returns (r: Result<Option<Building>>)
      modifies this`ErrMessage
      ensures var spec := ReadBuilding(element, rows, columns, readReal);
              SameOutcome(r, spec.0) &&
              (r.Ok? && r.value.Some? ==> var bld := r.value.value;
                 fresh(bld) && bld.Wellformed() && spec.0 == Ok(Some(Loaded(SettingsOf(bld), bld.Views())))) &&
              ErrMessage == (if spec.1.Some? then spec.1.value else old(ErrMessage))
    {
      var fc, fw, fh, gr := Attr(element, "floorcount"), Attr(element, "floorwidth"), Attr(element, "floorheight"),
                            Attr(element, "gridresolution");
      if fc.None? || fw.None? || fh.None? || gr.None? {
        return Ok(None);
      }
      var w := readReal(fw.value);
      if w.Throws? {
        return Throws(w.exception);
      }
      var h := readReal(fh.value);
      if h.Throws? {
        return Throws(h.exception);
      }
      var res := readReal(gr.value);
      if res.Throws? {
        return Throws(res.exception);
      }
      var made := CreateBuilding(element, w.value, h.value, res.value, rows, columns);
      if made.Throws? {
        return Throws(made.exception);
      }
      r := ReadFloorsInto(made.value, element.children);
    }

    /** The building before its floorplans are read: the floors `AddFloor` creates, the seed and the
        constraint set name. The seed is parsed, and the two parameters are stored, before the floors are
        added; an exception from `AddFloor` still comes first. */
    method CreateBuilding(element: Element, width: real, height: real, resolution: real, rows: nat, columns: nat)
      returns (made: Result<Building>)
      requires Attr(element, "floorcount").Some?
      ensures var spec := NewBuilding(element, width, height, resolution, rows, columns);
              (made.Throws? <==> spec.Throws?) && (made.Throws? ==> made.exception == spec.exception) &&
              (made.Ok? ==> var bld := made.value;
                 fresh(bld) && bld.Wellformed() && (forall f | f in bld.Floors :: fresh(f) && fresh(f.Grid.tiles)) &&
                 bld.Views() == spec.value.0 && SettingsOf(bld) == spec.value.1)
    {
      var bld := new Building(width, height, resolution);
      var count := ParseInt(Attr(element, "floorcount").value);
      if count.Throws? {
        return Throws(count.exception);
      }
      var seed := Attr(element, "seed");
      var constraints := Attr(element, "constraints");
      var parsed := if seed.Some? then ParseInt(seed.value) else Ok(0);
      if parsed.Ok? {
        bld.Seed := parsed.value;
      }
      if constraints.Some? {
        bld.ConstraintSet := constraints;
      }
      var thrown := bld.AddFloors(count.value, rows, columns);
      if thrown.Some? {
        return Throws(thrown.value);
      }
      if parsed.Throws? {
        return Throws(parsed.exception);
      }
      ghost var n: nat := if count.value > 0 then count.value else 0;
      assert bld.Views() == EmptyFloors(n, rows, columns);
      NewBuildingOk(element, width, height, resolution, rows, columns, count.value, bld.Seed);
      return Ok(bld);
    }
  }

  function Header(): string
  {
    "<?xml version='1.0'?>\n"
  }

  /** The document of a description tree, in the writer's pieces. */
  lemma DocumentText(s: Settings, vs: seq<FloorView>, realText: real -> string)
    ensures Document(DescriptionTree(s, vs, realText)) ==
            Header() + ("<building" + AttributesText(BuildingAttributes(s, |vs|, realText))) + ">\n" +
            ("<floorplans>\n" + RenderAll(FloorElements(vs)) + "</floorplans>\n") + "</building>"
  {
    var plans := Element("floorplans", [], FloorElements(vs));
    Enclosed("floorplans", "<floorplans>\n", "</floorplans>\n", FloorElements(vs));
    assert [plans][..0] == [];
    assert RenderAll([plans]) == Render(plans);
    var attributes := AttributesText(BuildingAttributes(s, |vs|, realText));
    DocumentRegroup(Header(), attributes, Render(plans));
  }

  lemma DocumentRegroup(header: string, attributes: string, plans: string)
    requires header == "<?xml version='1.0'?>\n"
    ensures "<?xml version='1.0'?>\n" + "<" + "building" + attributes + ">\n" + plans + "</" + "building" + ">" ==
            header + ("<building" + attributes) + ">\n" + plans + "</building>"
  {
    assert "<" + "building" == "<building";
    assert "</" + "building" + ">" == "</building>";
  }
}

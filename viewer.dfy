/** The viewer's vertex buffers (BuildGen/Viewer/Assets/Scripts/Zone.cs and Layer.cs,
    Visualizador/Assets/Scripts/Floor.cs and Building.cs): zones hold triangle vertices, floors hold zones,
    layers hold floors, and a building flattens its layers into one vertex list and one colour list. The
    `ref List` parameters become a list passed in and the extended list returned. Zones, floors and layers
    are values: nothing here updates them, only the lists they append to and the building's buffers. */
module Viewer {
  import opened Seqs
  import opened Decimals

  /** A Unity `Vector3`; the coordinates are carried as data and never computed with. */
  datatype Vector3 = Vector3(x: real, y: real, z: real)

  /** A Unity `Color` built by `new Color(r, g, b)`, whose alpha is 1. */
  datatype Color = Color(r: real, g: real, b: real, a: real)

  // ---------------------------------------------------------------------------------------------
  // Zones

  /** The six vertices written for triangle `i`: the triangle, then the same triangle reversed. */
  function TwoSided(vs: seq<Vector3>, i: nat): seq<Vector3>
    requires 3 * i + 3 <= |vs|
  {
    [vs[3 * i], vs[3 * i + 1], vs[3 * i + 2], vs[3 * i + 2], vs[3 * i + 1], vs[3 * i]]
  }

  /** The vertices written for the first `k` triangles of `vs`. */
  function TrianglesOut(vs: seq<Vector3>, k: nat): seq<Vector3>
    requires 3 * k <= |vs|
  {
    if k == 0 then [] else TrianglesOut(vs, k - 1) + TwoSided(vs, k - 1)
  }

  /** What a zone writes: every whole triangle of its vertex list, both faces. */
  function ZoneOutput(vs: seq<Vector3>): seq<Vector3>
  {
    TrianglesOut(vs, |vs| / 3)
  }

  /** Six vertices per triangle, the six of triangle `i` at offset `6 * i`, in the order front face then
      back face. */
  lemma {:induction false} TrianglesOutShape(vs: seq<Vector3>, k: nat)
    requires 3 * k <= |vs|
    ensures |TrianglesOut(vs, k)| == 6 * k
    ensures forall i :: 0 <= i < k ==>
              TrianglesOut(vs, k)[6 * i..6 * i + 6] ==
                [vs[3 * i], vs[3 * i + 1], vs[3 * i + 2], vs[3 * i + 2], vs[3 * i + 1], vs[3 * i]]
  {
    if k > 0 {
      TrianglesOutShape(vs, k - 1);
      TrianglesStep(vs, k);
    }
  }

  /** The six vertices of every one of the first `k` triangles sit at their offset in `out`. */
  ghost predicate TrianglesAt(vs: seq<Vector3>, out: seq<Vector3>, k: nat)
    requires 3 * k <= |vs|
  {
    |out| == 6 * k && forall i :: 0 <= i < k ==> out[6 * i..6 * i + 6] == TwoSided(vs, i)
  }

  lemma TrianglesStep(vs: seq<Vector3>, k: nat)
    requires 0 < k && 3 * k <= |vs| && TrianglesAt(vs, TrianglesOut(vs, k - 1), k - 1)
    ensures TrianglesAt(vs, TrianglesOut(vs, k), k)
  {
    var prev, last := TrianglesOut(vs, k - 1), TwoSided(vs, k - 1);
    assert TrianglesOut(vs, k) == prev + last;
    forall i | 0 <= i < k
      ensures (prev + last)[6 * i..6 * i + 6] == TwoSided(vs, i)
    {
      if i < k - 1 {
        SliceOfAppendLeft(prev, last, 6 * i, 6 * i + 6);
      } else {
        SliceOfAppendRight(prev, last, 0, 6);
        assert last[0..6] == last;
      }
    }
  }

  /** A zone writes exactly `6 * (|vs| / 3)` vertices; one or two trailing vertices write nothing; and
      every vertex written is one of the zone's. */
  lemma ZoneOutputShape(vs: seq<Vector3>)
    ensures |ZoneOutput(vs)| == 6 * (|vs| / 3)
    ensures ZoneOutput(vs) == ZoneOutput(vs[..3 * (|vs| / 3)])
    ensures forall v :: v in ZoneOutput(vs) ==> v in vs
  {
    TrianglesOutSame(vs, vs[..3 * (|vs| / 3)], |vs| / 3);
    TrianglesOutFrom(vs, |vs| / 3);
  }

  /** The first `k` triangles depend only on the first `3 * k` vertices. */
  lemma {:induction false} TrianglesOutSame(vs: seq<Vector3>, ws: seq<Vector3>, k: nat)
    requires 3 * k <= |vs| && 3 * k <= |ws| && vs[..3 * k] == ws[..3 * k]
    ensures TrianglesOut(vs, k) == TrianglesOut(ws, k)
  {
    if k > 0 {
      assert vs[..3 * (k - 1)] == vs[..3 * k][..3 * (k - 1)];
      assert ws[..3 * (k - 1)] == ws[..3 * k][..3 * (k - 1)];
      TrianglesOutSame(vs, ws, k - 1);
      assert vs[3 * k - 3] == vs[..3 * k][3 * k - 3] && vs[3 * k - 2] == vs[..3 * k][3 * k - 2];
      assert vs[3 * k - 1] == vs[..3 * k][3 * k - 1];
      assert TwoSided(vs, k - 1) == TwoSided(ws, k - 1);
    }
  }

  /** Every vertex the first `k` triangles write is a vertex of the zone. */
  lemma {:induction false} TrianglesOutFrom(vs: seq<Vector3>, k: nat)
    requires 3 * k <= |vs|
    ensures |TrianglesOut(vs, k)| == 6 * k
    ensures forall v :: v in TrianglesOut(vs, k) ==> v in vs
  {
    if k > 0 {
      TrianglesOutFrom(vs, k - 1);
      forall v | v in TrianglesOut(vs, k)
        ensures v in vs
      {
        if v !in TrianglesOut(vs, k - 1) {
          assert v in TwoSided(vs, k - 1);
        }
      }
    }
  }

  /** A zone of the viewer: its triangle vertices, three per triangle. */
  datatype Zone = Zone(Vertices: seq<Vector3>)
  {
    /** `AppendToVertexBuffer`: `outVerts` extended by both faces of every whole triangle, in order. */
    method AppendToVertexBuffer(outVerts: seq<Vector3>) returns (r: seq<Vector3>)
      ensures r == outVerts + ZoneOutput(Vertices)
    {
      r := outVerts;
      var n := 0;
      while n < |Vertices| - 2
        invariant n % 3 == 0 && n <= |Vertices|
        invariant r == outVerts + TrianglesOut(Vertices, n / 3)
      {
        r := r + [Vertices[n], Vertices[n + 1], Vertices[n + 2], Vertices[n + 2], Vertices[n + 1], Vertices[n]];
        assert TrianglesOut(Vertices, n / 3 + 1) == TrianglesOut(Vertices, n / 3) + TwoSided(Vertices, n / 3);
        n := n + 3;
      }
    }
  }

  // ---------------------------------------------------------------------------------------------
  // Floors

  /** What a list of zones writes: each zone's output, in list order. */
  function ZonesOutput(zs: seq<Zone>): seq<Vector3>
  {
    if |zs| == 0 then [] else ZonesOutput(zs[..|zs| - 1]) + ZoneOutput(zs[|zs| - 1].Vertices)
  }

  /** A floor of the viewer: its zones, and whether it is drawn. */
  datatype Floor = Floor(Zones: seq<Zone>, Enabled: bool)
  {
    /** What the floor writes: nothing when disabled, its zones' output otherwise. */
    function Output(): seq<Vector3>
    {
      if Enabled then ZonesOutput(Zones) else []
    }

    /** `AppendToVertexBuffer`: `outVerts` extended by the floor's output. */
    method AppendToVertexBuffer(outVerts: seq<Vector3>) returns (r: seq<Vector3>)
      ensures r == outVerts + Output()
    {
      r := outVerts;
      if Enabled {
        for i := 0 to |Zones|
          invariant r == outVerts + ZonesOutput(Zones[..i])
        {
          r := Zones[i].AppendToVertexBuffer(r);
          assert Zones[..i + 1][..i] == Zones[..i];
        }
        assert Zones[..|Zones|] == Zones;
      }
    }
  }

  /** The `Floor` constructor: a new floor is drawn and has no zones, so it writes nothing. */
  function NewFloor(): (f: Floor)
    ensures f.Enabled && f.Zones == [] && f.Output() == []
  {
    Floor([], true)
  }

  /** The zones of a floor write one after the other: split the list anywhere, and the output of the whole
      is the output of the first part followed by that of the second. */
  lemma {:induction false} ZonesOutputAppend(a: seq<Zone>, b: seq<Zone>)
    ensures ZonesOutput(a + b) == ZonesOutput(a) + ZonesOutput(b)
    decreases |b|
  {
    if |b| == 0 {
      assert a + b == a;
    } else {
      var b' := b[..|b| - 1];
      assert (a + b)[..|a + b| - 1] == a + b';
      ZonesOutputAppend(a, b');
      AppendAssoc(ZonesOutput(a), ZonesOutput(b'), ZoneOutput(b[|b| - 1].Vertices));
    }
  }

  // ---------------------------------------------------------------------------------------------
  // Layers

  /** What a list of floors writes: each floor's output, in list order. */
  function FloorsOutput(fs: seq<Floor>): seq<Vector3>
  {
    if |fs| == 0 then [] else FloorsOutput(fs[..|fs| - 1]) + fs[|fs| - 1].Output()
  }

  /** The colour of a layer's vertices by its exact name: red for "passages", blue for "ceiling", green for
      "rooms" and black for any other name. */
  function LayerColor(name: string): (c: Color)
    ensures c.a == 1.0
    ensures name == "passages" <==> c == Color(1.0, 0.0, 0.0, 1.0)
    ensures name == "ceiling" <==> c == Color(0.0, 0.0, 1.0, 1.0)
    ensures name == "rooms" <==> c == Color(0.0, 1.0, 0.0, 1.0)
    ensures name != "passages" && name != "ceiling" && name != "rooms" <==> c == Color(0.0, 0.0, 0.0, 1.0)
  {
    if name == "passages" then Color(1.0, 0.0, 0.0, 1.0)
    else if name == "ceiling" then Color(0.0, 0.0, 1.0, 1.0)
    else if name == "rooms" then Color(0.0, 1.0, 0.0, 1.0)
    else Color(0.0, 0.0, 0.0, 1.0)
  }

  /** `n` copies of colour `c`. */
  function Repeat(c: Color, n: nat): (r: seq<Color>)
    ensures |r| == n && forall i :: 0 <= i < n ==> r[i] == c
  {
    if n == 0 then [] else Repeat(c, n - 1) + [c]
  }

  /** Copies of one colour, appended to copies of it. */
  lemma RepeatAppend(c: Color, m: nat, n: nat)
    ensures Repeat(c, m) + Repeat(c, n) == Repeat(c, m + n)
  {
    assert Repeat(c, m) + Repeat(c, n) == Repeat(c, m + n);
  }

  /** One turn of the floor loop of `Layer.AppendToVertexBuffer`, for the colours: floor `i` appended as
      many colours as it appended vertices. */
  lemma ColorsStep(fs: seq<Floor>, i: nat, colors: seq<Color>, c: Color, cols0: seq<Color>, added: nat,
                   cols: seq<Color>)
    requires i < |fs| && added == |fs[i].Output()|
    requires cols0 == colors + Repeat(c, |FloorsOutput(fs[..i])|) && cols == cols0 + Repeat(c, added)
    ensures cols == colors + Repeat(c, |FloorsOutput(fs[..i + 1])|)
  {
    FloorsSnoc(fs, i);
    ColorsSnoc(colors, c, |FloorsOutput(fs[..i])|, added);
  }

  lemma FloorsSnoc(fs: seq<Floor>, i: nat)
    requires i < |fs|
    ensures FloorsOutput(fs[..i + 1]) == FloorsOutput(fs[..i]) + fs[i].Output()
  {
    assert fs[..i + 1][..i] == fs[..i];
  }

  lemma ColorsSnoc(colors: seq<Color>, c: Color, m: nat, n: nat)
    ensures colors + Repeat(c, m) + Repeat(c, n) == colors + Repeat(c, m + n)
  {
    RepeatAppend(c, m, n);
    AppendAssoc(colors, Repeat(c, m), Repeat(c, n));
  }

  /** A layer of the viewer: its floors, whether it is drawn, and its name. */
  datatype Layer = Layer(Floors: seq<Floor>, Enabled: bool, Name: string)
  {
    /** What the layer writes: nothing when disabled, its floors' output otherwise. */
    function Output(): seq<Vector3>
    {
      if Enabled then FloorsOutput(Floors) else []
    }

    /** `AppendToVertexBuffer`: the vertices extended by the layer's output, and the colours by one colour
        of the layer's name per vertex added. */
    method AppendToVertexBuffer(outVerts: seq<Vector3>, colors: seq<Color>)
      returns (verts: seq<Vector3>, cols: seq<Color>)
      ensures verts == outVerts + Output()
      ensures cols == colors + Repeat(LayerColor(Name), |Output()|)
    {
      verts, cols := outVerts, colors;
      if Enabled {
        var color0 := LayerColor(Name);
        for i := 0 to |Floors|
          invariant verts == outVerts + FloorsOutput(Floors[..i])
          invariant cols == colors + Repeat(color0, |FloorsOutput(Floors[..i])|)
        {
          ghost var cols0 := cols;
          var initialVertCount := |verts|;
          verts := Floors[i].AppendToVertexBuffer(verts);
          var numAddedVertices := |verts| - initialVertCount;
          var color := LayerColor(Name);
          for n := 0 to numAddedVertices
            invariant cols == cols0 + Repeat(color, n)
          {
            cols := cols + [color];
          }
          FloorsSnoc(Floors, i);
          AppendAssoc(outVerts, FloorsOutput(Floors[..i]), Floors[i].Output());
          ColorsStep(Floors, i, colors, color0, cols0, numAddedVertices, cols);
        }
        assert Floors[..|Floors|] == Floors;
      }
    }
  }

  /** The `Layer` constructor: a new layer is drawn, has no floors and is named "Unspecified". */
  function NewLayer(): (l: Layer)
    ensures l.Enabled && l.Floors == [] && l.Name == "Unspecified" && l.Output() == []
  {
    Layer([], true, "Unspecified")
  }

  /** A layer writes twice as many vertices as its zones hold at most; exactly twice as many when it and
      all its floors are drawn and every zone holds whole triangles; none when it is not drawn. */
  lemma LayerOutputBound(l: Layer)
    ensures |l.Output()| <= 2 * VertexCount(l.Floors)
    ensures !l.Enabled ==> l.Output() == []
    ensures l.Enabled && (forall f :: f in l.Floors ==> f.Enabled && forall z :: z in f.Zones ==> |z.Vertices| % 3 == 0)
            ==> |l.Output()| == 2 * VertexCount(l.Floors)
  {
    FloorsOutputBound(l.Floors);
  }

  lemma {:induction false} FloorsOutputBound(fs: seq<Floor>)
    ensures |FloorsOutput(fs)| <= 2 * VertexCount(fs)
    ensures (forall f :: f in fs ==> f.Enabled && forall z :: z in f.Zones ==> |z.Vertices| % 3 == 0)
            ==> |FloorsOutput(fs)| == 2 * VertexCount(fs)
  {
    if |fs| > 0 {
      var last := fs[|fs| - 1];
      assert last in fs;
      FloorsOutputBound(fs[..|fs| - 1]);
      ZonesOutputBound(last.Zones);
      assert forall f :: f in fs[..|fs| - 1] ==> f in fs;
    }
  }

  lemma {:induction false} ZonesOutputBound(zs: seq<Zone>)
    ensures |ZonesOutput(zs)| <= 2 * ZonesVertexCount(zs)
    ensures (forall z :: z in zs ==> |z.Vertices| % 3 == 0) ==> |ZonesOutput(zs)| == 2 * ZonesVertexCount(zs)
  {
    if |zs| > 0 {
      var last := zs[|zs| - 1];
      assert last in zs;
      ZonesOutputBound(zs[..|zs| - 1]);
      TrianglesOutFrom(last.Vertices, |last.Vertices| / 3);
      assert forall z :: z in zs[..|zs| - 1] ==> z in zs;
    }
  }

  // ---------------------------------------------------------------------------------------------
  // The building

  /** The number of zones of a list of floors, drawn or not. */
  function ZoneCount(fs: seq<Floor>): nat
  {
    if |fs| == 0 then 0 else ZoneCount(fs[..|fs| - 1]) + |fs[|fs| - 1].Zones|
  }

  /** The number of vertices a list of zones holds. */
  function ZonesVertexCount(zs: seq<Zone>): nat
  {
    if |zs| == 0 then 0 else ZonesVertexCount(zs[..|zs| - 1]) + |zs[|zs| - 1].Vertices|
  }

  /** The number of vertices the zones of a list of floors hold, drawn or not. */
  function VertexCount(fs: seq<Floor>): nat
  {
    if |fs| == 0 then 0 else VertexCount(fs[..|fs| - 1]) + ZonesVertexCount(fs[|fs| - 1].Zones)
  }

  /** The vertex buffer of a list of layers: every layer's output, in layer order. */
  function LayersVertices(ls: seq<Layer>): seq<Vector3>
  {
    if |ls| == 0 then [] else LayersVertices(ls[..|ls| - 1]) + ls[|ls| - 1].Output()
  }

  /** The colour buffer of a list of layers: for every layer, its colour once per vertex it writes. */
  function LayersColors(ls: seq<Layer>): seq<Color>
  {
    if |ls| == 0 then []
    else LayersColors(ls[..|ls| - 1]) + Repeat(LayerColor(ls[|ls| - 1].Name), |ls[|ls| - 1].Output()|)
  }

  /** The two buffers stay in step: one colour per vertex. */
  lemma {:induction false} BuffersInStep(ls: seq<Layer>)
    ensures |LayersColors(ls)| == |LayersVertices(ls)|
  {
    if |ls| > 0 {
      BuffersInStep(ls[..|ls| - 1]);
    }
  }

  /** Layers write one after the other: split the list anywhere and the vertex buffer is the buffer of
      the first part followed by that of the second. */
  lemma {:induction false} LayersVerticesAppend(a: seq<Layer>, b: seq<Layer>)
    ensures LayersVertices(a + b) == LayersVertices(a) + LayersVertices(b)
    decreases |b|
  {
    if |b| == 0 {
      assert a + b == a;
    } else {
      var b' := b[..|b| - 1];
      assert (a + b)[..|a + b| - 1] == a + b';
      LayersVerticesAppend(a, b');
      AppendAssoc(LayersVertices(a), LayersVertices(b'), b[|b| - 1].Output());
    }
  }

  /** The same for the colour buffer, so a layer's colours sit at the positions of its vertices. */
  lemma {:induction false} LayersColorsAppend(a: seq<Layer>, b: seq<Layer>)
    ensures LayersColors(a + b) == LayersColors(a) + LayersColors(b)
    decreases |b|
  {
    if |b| == 0 {
      assert a + b == a;
    } else {
      var b' := b[..|b| - 1];
      var last := b[|b| - 1];
      assert (a + b)[..|a + b| - 1] == a + b';
      LayersColorsAppend(a, b');
      AppendAssoc(LayersColors(a), LayersColors(b'), Repeat(LayerColor(last.Name), |last.Output()|));
    }
  }

  /** The start of a line of the contents description: the layer's name, index and floor count. */
  function LineHead(l: Layer, n: nat): string
  {
    "\tLayer '" + l.Name + "' (i=" + DecimalString(n) + ") present in " + DecimalString(|l.Floors|)
      + " floors and contains "
  }

  /** The end of a line of the contents description: the zone and vertex counts. */
  function LineCounts(zoneCount: nat, vertCount: nat): string
  {
    DecimalString(zoneCount) + " zones and " + DecimalString(vertCount) + " vertices.\n"
  }

  /** One line of the contents description, its counts summed over all of the layer's floors. */
  function LayerLine(l: Layer, n: nat): string
  {
    LineHead(l, n) + LineCounts(ZoneCount(l.Floors), VertexCount(l.Floors))
  }

  /** The lines of the first `k` layers. */
  function LayerLines(ls: seq<Layer>, k: nat): string
    requires k <= |ls|
  {
    if k == 0 then "" else LayerLines(ls, k - 1) + LayerLine(ls[k - 1], k - 1)
  }

  /** The contents description of a list of layers. */
  function Description(ls: seq<Layer>): string
  {
    Header(ls) + LayerLines(ls, |ls|)
  }

  /** The header of the contents description. */
  function Header(ls: seq<Layer>): string
  {
    "Contains " + DecimalString(|ls|) + " layers:\n"
  }

  /** One turn of the description loop: the line of layer `n`, written in two appends after the lines
      before it. */
  lemma DescriptionStep(ls: seq<Layer>, n: nat, ret: string, zoneCount: nat, vertCount: nat)
    requires n < |ls| && ret == Header(ls) + LayerLines(ls, n)
    requires zoneCount == ZoneCount(ls[n].Floors) && vertCount == VertexCount(ls[n].Floors)
    ensures ret + LineHead(ls[n], n) + LineCounts(zoneCount, vertCount) == Header(ls) + LayerLines(ls, n + 1)
  {
    AppendAssoc(ret, LineHead(ls[n], n), LineCounts(zoneCount, vertCount));
    AppendAssoc(Header(ls), LayerLines(ls, n), LayerLine(ls[n], n));
  }

  /** The counting loops of `ContentsDescription`: the vertices and the zones of all the layer's floors,
      drawn or not. */
  method CountContents(layer: Layer) returns (vertCount: nat, zoneCount: nat)
    ensures zoneCount == ZoneCount(layer.Floors) && vertCount == VertexCount(layer.Floors)
  {
    vertCount, zoneCount := 0, 0;
    for i := 0 to |layer.Floors|
      invariant zoneCount == ZoneCount(layer.Floors[..i]) && vertCount == VertexCount(layer.Floors[..i])
    {
      var cfloor := layer.Floors[i];
      zoneCount := zoneCount + |cfloor.Zones|;
      ghost var before := vertCount;
      for j := 0 to |cfloor.Zones|
        invariant vertCount == before + ZonesVertexCount(cfloor.Zones[..j])
      {
        vertCount := vertCount + |cfloor.Zones[j].Vertices|;
        assert cfloor.Zones[..j + 1][..j] == cfloor.Zones[..j];
      }
      assert cfloor.Zones[..|cfloor.Zones|] == cfloor.Zones;
      assert layer.Floors[..i + 1][..i] == layer.Floors[..i];
    }
    assert layer.Floors[..|layer.Floors|] == layer.Floors;
  }

  class Building {
    var Layers: seq<Layer>
    var FloorCount: int
    var Vertices: seq<Vector3>
    var Colors: seq<Color>

    constructor()
      ensures Layers == [] && Vertices == [] && Colors == [] && FloorCount == 0
    {
      Layers := [];
      Vertices := [];
      Colors := [];
      FloorCount := 0;
    }

    /** `UpdateVertexBuffer`: both buffers cleared and refilled from the layers, in layer order. */
    method UpdateVertexBuffer()
      modifies this`Vertices, this`Colors
      ensures Vertices == LayersVertices(Layers) && Colors == LayersColors(Layers)
      ensures |Colors| == |Vertices|
    {
      Vertices := [];
      Colors := [];
      for i := 0 to |Layers|
        invariant Vertices == LayersVertices(Layers[..i]) && Colors == LayersColors(Layers[..i])
      {
        Vertices, Colors := Layers[i].AppendToVertexBuffer(Vertices, Colors);
        assert Layers[..i + 1][..i] == Layers[..i];
      }
      assert Layers[..|Layers|] == Layers;
      BuffersInStep(Layers);
    }

    /** `ContentsDescription`: the layer count, then one line per layer whose zone and vertex counts are
        summed over all the layer's floors. */
    method ContentsDescription() returns (ret: string)
      ensures ret == Description(Layers)
    {
      var layers := Layers;
      ret := "Contains " + DecimalString(|layers|) + " layers:\n";
      for n := 0 to |layers|
        invariant ret == Header(layers) + LayerLines(layers, n)
      {
        ghost var ret0 := ret;
        var layer := layers[n];
        ret := ret + ("\tLayer '" + layer.Name + "' (i=" + DecimalString(n) + ") present in "
          + DecimalString(|layer.Floors|) + " floors and contains ");
        var vertCount, zoneCount := CountContents(layer);
        ret := ret + (DecimalString(zoneCount) + " zones and " + DecimalString(vertCount) + " vertices.\n");
        DescriptionStep(layers, n, ret0, zoneCount, vertCount);
      }
    }
  }
}

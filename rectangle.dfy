/** Integer axis-aligned rectangles (BuildGen/Common/Data/Rectangle.cs): TopLeft and BottomRight corners,
    intersection, inclusive containment, and the fixed four-band subtraction that `Add` is built on.
    "Cells" are the half-open unit tiles [X, XX) x [Y, YY) a rectangle covers. */
module Rectangles {
  import opened Wrappers
  import opened Seqs
  import opened Points

  datatype Rectangle = Rectangle(TopLeft: Point, BottomRight: Point)
  {
    function X(): int { TopLeft.X }
    function Y(): int { TopLeft.Y }
    function XX(): int { BottomRight.X }
    function YY(): int { BottomRight.Y }

    /** The rectangle has at least one cell; `TopLeft != BottomRight` is implied by the two comparisons. */
    predicate Valid()
    {
      TopLeft.NotEquals(BottomRight) && X() < XX() && Y() < YY()
    }

    function Width(): int { XX() - X() }
    function Height(): int { YY() - Y() }

    /** The `Area` property (a float in the source; the product of two ints here). */
    function Area(): int { Width() * Height() }

    /** The `Width` setter: only BottomRight moves. */
    function WithWidth(value: int): (r: Rectangle)
      ensures r.TopLeft == TopLeft && r.YY() == YY() && r.Width() == value
    {
      this.(BottomRight := BottomRight.(X := X() + value))
    }

    /** The `Height` setter: only BottomRight moves. */
    function WithHeight(value: int): (r: Rectangle)
      ensures r.TopLeft == TopLeft && r.XX() == XX() && r.Height() == value
    {
      this.(BottomRight := BottomRight.(Y := Y() + value))
    }

    /** Half-open cell membership. */
    predicate InCell(x: int, y: int)
    {
      X() <= x < XX() && Y() <= y < YY()
    }

    /** The zero rectangle when the two are strictly apart, the componentwise max/min corners otherwise. */
    function Intersect(rect: Rectangle): (r: Rectangle)
      ensures Separated(this, rect) ==> r == Rect(0, 0, 0, 0)
      ensures !Separated(this, rect) ==>
                forall x, y :: r.InCell(x, y) <==> InCell(x, y) && rect.InCell(x, y)
    {
      if rect.XX() < X() || rect.YY() < Y() || rect.X() > XX() || rect.Y() > YY() then
        Rect(0, 0, 0, 0)
      else
        Rect(Max(X(), rect.X()), Max(Y(), rect.Y()), Min(XX(), rect.XX()), Min(YY(), rect.YY()))
    }

    /** Inclusive on all four bounds. */
    predicate Contains(rect: Rectangle)
    {
      rect.X() >= X() && rect.Y() >= Y() && rect.XX() <= XX() && rect.YY() <= YY()
    }

    /** Inclusive on all four bounds, so the far edge counts as inside. */
    predicate ContainsPoint(x: int, y: int)
    {
      x >= X() && y >= Y() && x <= XX() && y <= YY()
    }

    function Clone(): (r: Rectangle)
      ensures r.X() == X() && r.Y() == Y() && r.XX() == XX() && r.YY() == YY()
    {
      Rect(X(), Y(), XX(), YY())
    }

    /** `this` minus `rect`: None (null) when `rect` contains `this`; `[this]` when their intersection is not
        Valid; otherwise the valid ones of the left, top, right and bottom bands, or `[this]` if none is. */
    function Subtract(rect: Rectangle): Option<seq<Rectangle>>
    {
      if rect.Contains(this) then None
      else
        var i := Intersect(rect);
        if !i.Valid() then Some([this])
        else
          var kept := FilterValid(Bands(i));
          if |kept| == 0 then Some([this]) else Some(kept)
    }

    /** The four candidate bands, in the order left, top, right, bottom. */
    function Bands(i: Rectangle): (r: seq<Rectangle>)
      ensures |r| == 4
    {
      [ Rect(Min(X(), i.X()), Min(Y(), i.Y()), i.X(), Max(YY(), i.Y())),
        Rect(Min(XX(), i.X()), Y(), XX(), i.Y()),
        Rect(i.XX(), i.Y(), XX(), i.YY()),
        Rect(i.X(), i.YY(), XX(), YY()) ]
    }

    /** `this` first, then the pieces of `rect.Subtract(this)`, through LINQ `Union`; a null list from
        `Subtract` (when `this` contains `rect`) makes `Union` throw. */
    function Add(rect: Rectangle): Result<seq<Rectangle>>
    {
      match rect.Subtract(this)
      case None => Throws(ArgumentNullException)
      case Some(pieces) => Ok(Union([this], pieces))
    }
  }

  /** The four-argument constructor. */
  function Rect(x: int, y: int, xx: int, yy: int): (r: Rectangle)
    ensures r.X() == x && r.Y() == y && r.XX() == xx && r.YY() == yy
  {
    Rectangle(Point(x, y), Point(xx, yy))
  }

  function Max(a: int, b: int): int { if a >= b then a else b }
  function Min(a: int, b: int): int { if a <= b then a else b }

  /** The test in `Intersect` that returns the zero rectangle. */
  predicate Separated(a: Rectangle, b: Rectangle)
  {
    b.XX() < a.X() || b.YY() < a.Y() || b.X() > a.XX() || b.Y() > a.YY()
  }

  /** Some rectangle of `rs` has the cell (x, y). */
  ghost predicate Covers(rs: seq<Rectangle>, x: int, y: int)
  {
    exists k :: 0 <= k < |rs| && rs[k].InCell(x, y)
  }

  /** No cell lies in two rectangles of `rs`. */
  ghost predicate CellsDisjoint(rs: seq<Rectangle>)
  {
    forall i, j, x, y :: 0 <= i < j < |rs| && rs[i].InCell(x, y) ==> !rs[j].InCell(x, y)
  }

  /** The valid rectangles of `rs`, in order (the backward `RemoveAt` loop of `Subtract`). */
  function FilterValid(rs: seq<Rectangle>): (r: seq<Rectangle>)
    ensures |r| <= |rs|
    ensures forall k :: 0 <= k < |r| ==> r[k].Valid() && r[k] in rs
  {
    if |rs| == 0 then []
    else (if rs[0].Valid() then [rs[0]] else []) + FilterValid(rs[1..])
  }

  lemma {:induction false} FilterValidCovers(rs: seq<Rectangle>, x: int, y: int)
    ensures Covers(FilterValid(rs), x, y) <==> Covers(rs, x, y)
  {
    if |rs| > 0 {
      FilterValidCovers(rs[1..], x, y);
      var f := FilterValid(rs[1..]);
      var h := if rs[0].Valid() then [rs[0]] else [];
      if Covers(rs, x, y) {
        var k :| 0 <= k < |rs| && rs[k].InCell(x, y);
        if k == 0 {
          assert (h + f)[0] == rs[0];
        } else {
          assert rs[1..][k - 1].InCell(x, y);
          var m :| 0 <= m < |f| && f[m].InCell(x, y);
          assert (h + f)[|h| + m] == f[m];
        }
      }
      if Covers(h + f, x, y) {
        var k :| 0 <= k < |h + f| && (h + f)[k].InCell(x, y);
        if k < |h| {
          assert rs[0].InCell(x, y);
        } else {
          assert f[k - |h|].InCell(x, y);
          var m :| 0 <= m < |rs[1..]| && rs[1..][m].InCell(x, y);
          assert rs[m + 1].InCell(x, y);
        }
      }
    }
  }

  /** Dropping rectangles keeps the rest disjoint, provided the input was. */
  lemma {:induction false} FilterValidDisjoint(rs: seq<Rectangle>)
    requires CellsDisjoint(rs)
    ensures CellsDisjoint(FilterValid(rs))
  {
    if |rs| > 0 {
      var rest := rs[1..];
      assert CellsDisjoint(rest) by {
        forall i, j, x, y | 0 <= i < j < |rest| && rest[i].InCell(x, y) ensures !rest[j].InCell(x, y) {
          assert rs[i + 1] == rest[i] && rs[j + 1] == rest[j];
        }
      }
      FilterValidDisjoint(rest);
      var f := FilterValid(rest);
      var h := if rs[0].Valid() then [rs[0]] else [];
      var r := h + f;
      forall i, j, x, y | 0 <= i < j < |r| && r[i].InCell(x, y) ensures !r[j].InCell(x, y) {
        if i < |h| {
          assert r[i] == rs[0];
          assert r[j] == f[j - |h|];
        } else {
          assert r[i] == f[i - |h|] && r[j] == f[j - |h|];
        }
      }
    }
  }

  /** Intersection is symmetric and idempotent. */
  lemma IntersectSymmetricIdempotent(a: Rectangle, b: Rectangle)
    requires a.X() <= a.XX() && a.Y() <= a.YY()
    ensures a.Intersect(b) == b.Intersect(a)
    ensures a.Intersect(a) == a
  {
  }

  /** Rectangles that only touch along an edge give a degenerate, invalid intersection. */
  lemma EdgeTouchingIntersection(a: Rectangle, b: Rectangle)
    requires a.Valid() && b.Valid()
    requires b.X() == a.XX() && a.Y() < b.YY() && b.Y() < a.YY()
    ensures !Separated(a, b) && !a.Intersect(b).Valid()
  {
  }

  /** Both containment tests are reflexive; the point test includes the far corner. */
  lemma ContainsReflexive(r: Rectangle)
    requires r.X() <= r.XX() && r.Y() <= r.YY()
    ensures r.Contains(r)
    ensures r.ContainsPoint(r.X(), r.Y()) && r.ContainsPoint(r.XX(), r.YY())
  {
  }

  /** The four bands of a valid intersection tile `a` minus `b` exactly and without overlap. */
  lemma BandsPartition(a: Rectangle, b: Rectangle)
    requires !Separated(a, b) && a.Intersect(b).Valid()
    ensures CellsDisjoint(a.Bands(a.Intersect(b)))
    ensures forall x, y :: Covers(a.Bands(a.Intersect(b)), x, y) <==> a.InCell(x, y) && !b.InCell(x, y)
  {
    var i := a.Intersect(b);
    var bs := a.Bands(i);
    assert i.X() == Max(a.X(), b.X()) && i.Y() == Max(a.Y(), b.Y());
    assert i.XX() == Min(a.XX(), b.XX()) && i.YY() == Min(a.YY(), b.YY());
    assert bs[0] == Rect(a.X(), a.Y(), i.X(), a.YY());
    assert bs[1] == Rect(i.X(), a.Y(), a.XX(), i.Y());
    forall x, y ensures Covers(bs, x, y) <==> a.InCell(x, y) && !b.InCell(x, y) {
      if a.InCell(x, y) && !b.InCell(x, y) {
        if x < i.X() { assert bs[0].InCell(x, y); }
        else if y < i.Y() { assert bs[1].InCell(x, y); }
        else if y < i.YY() { assert bs[2].InCell(x, y); }
        else { assert bs[3].InCell(x, y); }
      }
    }
  }

  /** What `Subtract` promises: None exactly when `rect` contains `a`; otherwise pieces inside `a`,
      pairwise disjoint, whose cells are exactly the cells of `a` not in `rect`. */
  lemma SubtractCells(a: Rectangle, rect: Rectangle)
    ensures a.Subtract(rect).None? <==> rect.Contains(a)
    ensures a.Subtract(rect).Some? ==>
              var ps := a.Subtract(rect).value;
              |ps| > 0 && CellsDisjoint(ps) && (forall k :: 0 <= k < |ps| ==> a.Contains(ps[k])) &&
              (!a.Intersect(rect).Valid() ==> ps == [a]) &&
              (a.Intersect(rect).Valid() ==> forall k :: 0 <= k < |ps| ==> ps[k].Valid()) &&
              forall x, y :: Covers(ps, x, y) <==> a.InCell(x, y) && !rect.InCell(x, y)
  {
    if !rect.Contains(a) {
      var i := a.Intersect(rect);
      var ps := a.Subtract(rect).value;
      if !i.Valid() {
        assert ps == [a];
        forall x, y | a.InCell(x, y) ensures !rect.InCell(x, y) {
          if !Separated(a, rect) { assert !i.InCell(x, y); }
        }
        forall x, y ensures Covers(ps, x, y) <==> a.InCell(x, y) && !rect.InCell(x, y) {
          if a.InCell(x, y) { assert ps[0].InCell(x, y); }
        }
      } else {
        var bs := a.Bands(i);
        BandsPartition(a, rect);
        FilterValidDisjoint(bs);
        forall x, y ensures Covers(FilterValid(bs), x, y) <==> Covers(bs, x, y) {
          FilterValidCovers(bs, x, y);
        }
        // a cell of a outside rect keeps one band, so the [a] fallback is not taken
        var wx := if rect.XX() < a.XX() then a.XX() - 1 else a.X();
        var wy := if rect.YY() < a.YY() && rect.XX() >= a.XX() && rect.X() <= a.X() then a.YY() - 1 else a.Y();
        assert a.InCell(wx, wy) && !rect.InCell(wx, wy);
        assert Covers(FilterValid(bs), wx, wy);
        assert ps == FilterValid(bs);
        forall k | 0 <= k < |ps| ensures a.Contains(ps[k]) {
          assert ps[k] in bs;
        }
      }
    }
  }

  /** Disjoint valid rectangles are distinct. */
  lemma DisjointValidNoDuplicates(rs: seq<Rectangle>)
    requires CellsDisjoint(rs) && forall k :: 0 <= k < |rs| ==> rs[k].Valid()
    ensures NoDuplicates(rs)
  {
    forall i, j | 0 <= i < j < |rs| ensures rs[i] != rs[j] {
      assert rs[i].InCell(rs[i].X(), rs[i].Y());
    }
  }

  /** `Add` throws exactly when `this` contains `rect`. */
  lemma AddThrows(a: Rectangle, rect: Rectangle)
    ensures a.Add(rect).Throws? <==> a.Contains(rect)
  {
    SubtractCells(rect, a);
  }

  /** `this` is not among the pieces of `rect.Subtract(this)`, and they are distinct. */
  lemma AddPiecesFresh(a: Rectangle, rect: Rectangle)
    requires !a.Contains(rect)
    ensures NoDuplicates(rect.Subtract(a).value)
    ensures forall k :: 0 <= k < |rect.Subtract(a).value| ==> [a][0] != rect.Subtract(a).value[k]
  {
    SubtractCells(rect, a);
    var ps := rect.Subtract(a).value;
    if rect.Intersect(a).Valid() {
      DisjointValidNoDuplicates(ps);
      forall k | 0 <= k < |ps| ensures [a][0] != ps[k] {
        assert ps[k].InCell(ps[k].X(), ps[k].Y());
        assert Covers(ps, ps[k].X(), ps[k].Y());
      }
    }
  }

  /** What `Add` promises: it throws exactly when `this` contains `rect`; otherwise the result is `this`
      followed by the pieces of `rect.Subtract(this)` (nothing needs dropping), and it covers exactly the
      cells of the two rectangles together. */
  lemma AddCells(a: Rectangle, rect: Rectangle)
    ensures a.Add(rect).Throws? <==> a.Contains(rect)
    ensures a.Add(rect).Ok? ==>
              var r := a.Add(rect).value;
              r == [a] + rect.Subtract(a).value && NoDuplicates(r) &&
              forall x, y :: Covers(r, x, y) <==> a.InCell(x, y) || rect.InCell(x, y)
  {
    SubtractCells(rect, a);
    if !a.Contains(rect) {
      var ps := rect.Subtract(a).value;
      AddPiecesFresh(a, rect);
      UnionOfDisjoint([a], ps);
      var r := [a] + ps;
      forall x, y ensures Covers(r, x, y) <==> a.InCell(x, y) || rect.InCell(x, y) {
        if a.InCell(x, y) { assert r[0].InCell(x, y); }
        else if rect.InCell(x, y) {
          assert Covers(ps, x, y);
          var k :| 0 <= k < |ps| && ps[k].InCell(x, y);
          assert r[k + 1] == ps[k];
        }
        if Covers(r, x, y) {
          var k :| 0 <= k < |r| && r[k].InCell(x, y);
          if k > 0 { assert ps[k - 1].InCell(x, y); assert Covers(ps, x, y); }
        }
      }
    }
  }

  /** The cells of a LINQ `Union` are the cells of its two inputs. */
  lemma UnionCovers(a: seq<Rectangle>, b: seq<Rectangle>, x: int, y: int)
    ensures Covers(Union(a, b), x, y) <==> Covers(a, x, y) || Covers(b, x, y)
  {
    var u := Union(a, b);
    if Covers(u, x, y) {
      var k :| 0 <= k < |u| && u[k].InCell(x, y);
      if u[k] in a {
        var i :| 0 <= i < |a| && a[i] == u[k];
      } else {
        var i :| 0 <= i < |b| && b[i] == u[k];
      }
    }
    if Covers(a, x, y) {
      var k :| 0 <= k < |a| && a[k].InCell(x, y);
      var i :| 0 <= i < |u| && u[i] == a[k];
    }
    if Covers(b, x, y) {
      var k :| 0 <= k < |b| && b[k].InCell(x, y);
      var i :| 0 <= i < |u| && u[i] == b[k];
    }
  }

  /** The backward loop of the source's `Subtract`: remove every invalid entry of `res`, last index first. */
  method RemoveInvalid(res0: seq<Rectangle>) returns (res: seq<Rectangle>)
    ensures res == FilterValid(res0)
  {
    res := res0;
    var n := |res0| - 1;
    while n >= 0
      invariant -1 <= n < |res0|
      invariant res == res0[..n + 1] + FilterValid(res0[n + 1..])
    {
      RemoveInvalidStep(res0, n, res);
      if !res[n].Valid() {
        res := res[..n] + res[n + 1..];
      }
      n := n - 1;
    }
    assert res0[0..] == res0;
  }

  /** One step of the backward loop: position `n` is dropped when invalid, and the filtered suffix grows by one. */
  lemma RemoveInvalidStep(res0: seq<Rectangle>, n: nat, res: seq<Rectangle>)
    requires n < |res0| && res == res0[..n + 1] + FilterValid(res0[n + 1..])
    ensures n < |res| && res[n] == res0[n]
    ensures !res0[n].Valid() ==> res[..n] + res[n + 1..] == res0[..n] + FilterValid(res0[n..])
    ensures res0[n].Valid() ==> res == res0[..n] + FilterValid(res0[n..])
  {
    var tail := FilterValid(res0[n + 1..]);
    assert res0[n..][1..] == res0[n + 1..];
    assert res0[..n + 1] == res0[..n] + [res0[n]];
    if !res0[n].Valid() {
      assert res[..n] == res0[..n];
      assert res[n + 1..] == tail;
    }
  }

  /** The source's `Subtract`, step by step. */
  method SubtractList(a: Rectangle, rect: Rectangle) returns (r: Option<seq<Rectangle>>)
    ensures r == a.Subtract(rect)
  {
    if rect.Contains(a) {
      return None;
    }
    var intersection := a.Intersect(rect);
    var res: seq<Rectangle>;
    if !intersection.Valid() {
      res := [a];
    } else {
      res := RemoveInvalid(a.Bands(intersection));
      if |res| == 0 {
        res := res + [a];
        assert res == [a];
      }
    }
    r := Some(res);
  }
}

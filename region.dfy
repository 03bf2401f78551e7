/** A region of the EditorV2 editor (EditorV2/Editor/Data/Region.cs): a base rectangle and an ordered list of
    add and subtract operations, evaluated lazily into a list of rectangles and cached until invalidated. */
module Regions {
  import opened Wrappers
  import opened Seqs
  import opened Rectangles

  datatype OperationType = Add | Subtract

  datatype Op = Op(rect: Rectangle, kind: OperationType)

  /** No two operations have the same rectangle. */
  predicate OpsDistinct(ops: seq<Op>)
  {
    forall i, j :: 0 <= i < j < |ops| ==> ops[i].rect != ops[j].rect
  }

  /** The index of the first operation on `rect`, or -1. */
  function FindOp(ops: seq<Op>, rect: Rectangle): (k: int)
    ensures -1 <= k < |ops|
    ensures k == -1 <==> forall i :: 0 <= i < |ops| ==> ops[i].rect != rect
    ensures k >= 0 ==> ops[k].rect == rect && forall i :: 0 <= i < k ==> ops[i].rect != rect
  {
    if |ops| == 0 then -1
    else if ops[0].rect == rect then 0
    else
      var k := FindOp(ops[1..], rect);
      if k == -1 then -1 else k + 1
  }

  /** `RemoveOp`'s effect on the list: the first operation on `rect` is dropped, the rest keep their order. */
  function WithoutOp(ops: seq<Op>, rect: Rectangle): seq<Op>
  {
    var k := FindOp(ops, rect);
    if k == -1 then ops else ops[..k] + ops[k + 1..]
  }

  /** The elements of `WithoutOp` are those of `ops` before and after the removed index. */
  lemma WithoutOpAt(ops: seq<Op>, rect: Rectangle, i: int)
    requires FindOp(ops, rect) != -1 && 0 <= i < |WithoutOp(ops, rect)|
    ensures WithoutOp(ops, rect)[i] == ops[if i < FindOp(ops, rect) then i else i + 1]
  {
  }

  /** Removing the first operation on `rect` keeps a distinct list distinct, and then no operation on
      `rect` is left; appending one afterwards keeps the list distinct. */
  lemma WithoutOpDistinct(ops: seq<Op>, rect: Rectangle, kind: OperationType)
    requires OpsDistinct(ops)
    ensures forall i :: 0 <= i < |WithoutOp(ops, rect)| ==> WithoutOp(ops, rect)[i].rect != rect
    ensures OpsDistinct(WithoutOp(ops, rect) + [Op(rect, kind)])
    ensures |WithoutOp(ops, rect)| == if FindOp(ops, rect) == -1 then |ops| else |ops| - 1
  {
    var k := FindOp(ops, rect);
    var w := WithoutOp(ops, rect);
    if k != -1 {
      forall i, j | 0 <= i < j < |w| ensures w[i].rect != w[j].rect {
        WithoutOpAt(ops, rect, i);
        WithoutOpAt(ops, rect, j);
      }
      forall i | 0 <= i < |w| ensures w[i].rect != rect {
        WithoutOpAt(ops, rect, i);
      }
    }
    var w' := w + [Op(rect, kind)];
    forall i, j | 0 <= i < j < |w'| ensures w'[i].rect != w'[j].rect {
      assert w'[i] == w[i];
      if j < |w| { assert w'[j] == w[j]; }
    }
  }

  /** `EvaluateSubtraction`: each piece minus `r`, newer results first (`subResults.Union(ret)`); a piece
      entirely inside `r` (a null subtraction) contributes nothing. */
  function EvalSubtraction(rects: seq<Rectangle>, r: Rectangle): seq<Rectangle>
    decreases |rects|
  {
    if |rects| == 0 then []
    else
      var acc := EvalSubtraction(rects[..|rects| - 1], r);
      match rects[|rects| - 1].Subtract(r)
      case None => acc
      case Some(sub) => Union(sub, acc)
  }

  /** `EvaluateAddition`: each piece plus `r`; `Rectangle.Add` throws when the piece contains `r`. */
  function EvalAddition(rects: seq<Rectangle>, r: Rectangle): Result<seq<Rectangle>>
    decreases |rects|
  {
    if |rects| == 0 then Ok([])
    else
      match EvalAddition(rects[..|rects| - 1], r)
      case Throws(e) => Throws(e)
      case Ok(acc) =>
        match rects[|rects| - 1].Add(r)
        case Throws(e) => Throws(e)
        case Ok(sub) => Ok(Union(sub, acc))
  }

  function ApplyOp(rects: seq<Rectangle>, op: Op): Result<seq<Rectangle>>
  {
    match op.kind
    case Add => EvalAddition(rects, op.rect)
    case Subtract => Ok(EvalSubtraction(rects, op.rect))
  }

  /** `Evaluate` without the cache: `[bounds]`, then every operation in order. */
  function EvalOps(bounds: Rectangle, ops: seq<Op>): Result<seq<Rectangle>>
    decreases |ops|
  {
    if |ops| == 0 then Ok([bounds])
    else
      match EvalOps(bounds, ops[..|ops| - 1])
      case Throws(e) => Throws(e)
      case Ok(rects) => ApplyOp(rects, ops[|ops| - 1])
  }

  /** Subtraction removes exactly the cells of `r`. */
  lemma {:induction false} EvalSubtractionCells(rects: seq<Rectangle>, r: Rectangle)
    ensures forall x, y :: Covers(EvalSubtraction(rects, r), x, y) <==> Covers(rects, x, y) && !r.InCell(x, y)
    decreases |rects|
  {
    if |rects| > 0 {
      var init := rects[..|rects| - 1];
      var last := rects[|rects| - 1];
      EvalSubtractionCells(init, r);
      SubtractCells(last, r);
      forall x, y ensures Covers(rects, x, y) <==> Covers(init, x, y) || last.InCell(x, y) {
        CoversSnoc(rects, x, y);
      }
      match last.Subtract(r)
      case None =>
      case Some(sub) =>
        forall x, y ensures Covers(Union(sub, EvalSubtraction(init, r)), x, y) <==>
                            Covers(sub, x, y) || Covers(EvalSubtraction(init, r), x, y) {
          UnionCovers(sub, EvalSubtraction(init, r), x, y);
        }
    }
  }

  /** Addition throws exactly when some piece contains `r`. */
  lemma {:induction false} EvalAdditionThrows(rects: seq<Rectangle>, r: Rectangle)
    ensures EvalAddition(rects, r).Throws? <==> AnyContains(rects, r)
    decreases |rects|
  {
    if |rects| > 0 {
      var init := rects[..|rects| - 1];
      var last := rects[|rects| - 1];
      EvalAdditionThrows(init, r);
      AddThrows(last, r);
      assert EvalAddition(rects, r).Throws? <==> EvalAddition(init, r).Throws? || last.Add(r).Throws?;
      ContainsSnoc(rects, r);
    }
  }

  /** Some piece contains `r`. */
  predicate AnyContains(rects: seq<Rectangle>, r: Rectangle)
  {
    exists k :: 0 <= k < |rects| && rects[k].Contains(r)
  }

  lemma ContainsSnoc(rects: seq<Rectangle>, r: Rectangle)
    requires |rects| > 0
    ensures AnyContains(rects, r) <==> AnyContains(rects[..|rects| - 1], r) || rects[|rects| - 1].Contains(r)
  {
    var init := rects[..|rects| - 1];
    if exists k :: 0 <= k < |rects| && rects[k].Contains(r) {
      var k :| 0 <= k < |rects| && rects[k].Contains(r);
      if k < |init| { assert init[k] == rects[k]; }
    }
    if exists k :: 0 <= k < |init| && init[k].Contains(r) {
      var k :| 0 <= k < |init| && init[k].Contains(r);
      assert rects[k] == init[k];
    }
  }

  /** The cells of `rects` are those of its prefix and of its last element. */
  lemma CoversSnoc(rects: seq<Rectangle>, x: int, y: int)
    requires |rects| > 0
    ensures Covers(rects, x, y) <==> Covers(rects[..|rects| - 1], x, y) || rects[|rects| - 1].InCell(x, y)
  {
    var init := rects[..|rects| - 1];
    if Covers(rects, x, y) {
      var k :| 0 <= k < |rects| && rects[k].InCell(x, y);
      if k < |rects| - 1 { assert init[k] == rects[k]; }
    }
    if Covers(init, x, y) {
      var k :| 0 <= k < |init| && init[k].InCell(x, y);
      assert rects[k] == init[k];
    }
  }

  /** A successful addition adds the cells of `r` to a nonempty list; adding to no pieces gives none. */
  lemma {:induction false} EvalAdditionCells(rects: seq<Rectangle>, r: Rectangle)
    ensures EvalAddition(rects, r).Ok? ==>
              forall x, y :: Covers(EvalAddition(rects, r).value, x, y) <==>
                             Covers(rects, x, y) || (|rects| > 0 && r.InCell(x, y))
    decreases |rects|
  {
    if |rects| > 0 && EvalAddition(rects, r).Ok? {
      var init := rects[..|rects| - 1];
      var last := rects[|rects| - 1];
      EvalAdditionCells(init, r);
      AddCells(last, r);
      var acc := EvalAddition(init, r).value;
      var sub := last.Add(r).value;
      forall x, y ensures Covers(Union(sub, acc), x, y) <==> Covers(rects, x, y) || r.InCell(x, y) {
        UnionCovers(sub, acc, x, y);
        CoversSnoc(rects, x, y);
      }
    }
  }

  /** The early `break` of `Evaluate` changes nothing: once no piece is left, every later operation
      leaves none. */
  lemma {:induction false} EmptyStaysEmpty(bounds: Rectangle, ops: seq<Op>, n: nat)
    requires n <= |ops| && EvalOps(bounds, ops[..n]) == Ok([])
    ensures EvalOps(bounds, ops) == Ok([])
    decreases |ops| - n
  {
    if n < |ops| {
      assert ops[..n + 1][..n] == ops[..n];
      EmptyStaysEmpty(bounds, ops, n + 1);
    } else {
      assert ops[..n] == ops;
    }
  }

  /** A region built only from subtractions never throws, and covers the cells of `bounds` outside every
      subtracted rectangle; its pieces lie inside `bounds`. */
  lemma {:induction false} SubtractionsOnly(bounds: Rectangle, ops: seq<Op>)
    requires forall i :: 0 <= i < |ops| ==> ops[i].kind == Subtract
    ensures EvalOps(bounds, ops).Ok?
    ensures forall x, y :: Covers(EvalOps(bounds, ops).value, x, y) <==>
              bounds.InCell(x, y) && forall i :: 0 <= i < |ops| ==> !ops[i].rect.InCell(x, y)
    decreases |ops|
  {
    if |ops| == 0 {
      forall x, y ensures Covers([bounds], x, y) <==> bounds.InCell(x, y) {
        if bounds.InCell(x, y) { assert [bounds][0].InCell(x, y); }
      }
    } else {
      var init := ops[..|ops| - 1];
      var last := ops[|ops| - 1];
      SubtractionsOnly(bounds, init);
      var rects := EvalOps(bounds, init).value;
      EvalSubtractionCells(rects, last.rect);
      forall x, y ensures (forall i :: 0 <= i < |ops| ==> !ops[i].rect.InCell(x, y)) <==>
                          (forall i :: 0 <= i < |init| ==> !init[i].rect.InCell(x, y)) && !last.rect.InCell(x, y) {
        if (forall i :: 0 <= i < |init| ==> !init[i].rect.InCell(x, y)) && !last.rect.InCell(x, y) {
          forall i | 0 <= i < |ops| ensures !ops[i].rect.InCell(x, y) {
            if i < |init| { assert ops[i] == init[i]; }
          }
        }
      }
    }
  }

  /** The pieces of a subtraction-only region lie inside the bounds. */
  lemma {:induction false} PiecesInsideBounds(bounds: Rectangle, ops: seq<Op>)
    requires forall i :: 0 <= i < |ops| ==> ops[i].kind == Subtract
    ensures EvalOps(bounds, ops).Ok?
    ensures forall k :: 0 <= k < |EvalOps(bounds, ops).value| ==> bounds.Contains(EvalOps(bounds, ops).value[k])
    decreases |ops|
  {
    SubtractionsOnly(bounds, ops);
    if |ops| > 0 {
      var init := ops[..|ops| - 1];
      PiecesInsideBounds(bounds, init);
      SubtractionInside(EvalOps(bounds, init).value, ops[|ops| - 1].rect, bounds);
    }
  }

  /** Subtraction keeps pieces inside any rectangle that contained them, and removes pieces that `r` contains. */
  lemma {:induction false} SubtractionInside(rects: seq<Rectangle>, r: Rectangle, outer: Rectangle)
    requires forall k :: 0 <= k < |rects| ==> outer.Contains(rects[k])
    ensures forall k :: 0 <= k < |EvalSubtraction(rects, r)| ==> outer.Contains(EvalSubtraction(rects, r)[k])
    ensures r.Contains(outer) ==> EvalSubtraction(rects, r) == []
    decreases |rects|
  {
    if |rects| > 0 {
      var init := rects[..|rects| - 1];
      SubtractionInside(init, r, outer);
      var last := rects[|rects| - 1];
      SubtractCells(last, r);
      match last.Subtract(r)
      case None =>
      case Some(sub) =>
        UnionInside(sub, EvalSubtraction(init, r), outer);
    }
  }

  lemma UnionInside(a: seq<Rectangle>, b: seq<Rectangle>, outer: Rectangle)
    requires forall k :: 0 <= k < |a| ==> outer.Contains(a[k])
    requires forall k :: 0 <= k < |b| ==> outer.Contains(b[k])
    ensures forall k :: 0 <= k < |Union(a, b)| ==> outer.Contains(Union(a, b)[k])
  {
    forall k | 0 <= k < |Union(a, b)| ensures outer.Contains(Union(a, b)[k]) {
      var u := Union(a, b)[k];
      if u in a {
        var i :| 0 <= i < |a| && a[i] == u;
      } else {
        var i :| 0 <= i < |b| && b[i] == u;
      }
    }
  }

  /** Subtracting the bounds themselves from a subtraction-only region leaves no pieces. */
  lemma SubtractBoundsEmpty(bounds: Rectangle, ops: seq<Op>)
    requires forall i :: 0 <= i < |ops| ==> ops[i].kind == Subtract
    ensures EvalOps(bounds, ops + [Op(bounds, Subtract)]) == Ok([])
  {
    var all := ops + [Op(bounds, Subtract)];
    assert all[..|all| - 1] == ops;
    PiecesInsideBounds(bounds, ops);
    SubtractionInside(EvalOps(bounds, ops).value, bounds, bounds);
  }

  /** The pieces of a subtraction-only region are valid rectangles, when the bounds are. */
  lemma {:induction false} PiecesOfSubtractionsValid(bounds: Rectangle, ops: seq<Op>)
    requires forall i :: 0 <= i < |ops| ==> ops[i].kind == Subtract
    ensures EvalOps(bounds, ops).Ok?
    ensures bounds.Valid() ==> forall k :: 0 <= k < |EvalOps(bounds, ops).value| ==> EvalOps(bounds, ops).value[k].Valid()
    decreases |ops|
  {
    SubtractionsOnly(bounds, ops);
    if |ops| > 0 {
      var init := ops[..|ops| - 1];
      PiecesOfSubtractionsValid(bounds, init);
      if bounds.Valid() {
        SubtractionValid(EvalOps(bounds, init).value, ops[|ops| - 1].rect);
      }
    }
  }

  /** Subtracting from valid pieces yields valid pieces. */
  lemma {:induction false} SubtractionValid(rects: seq<Rectangle>, r: Rectangle)
    requires forall k :: 0 <= k < |rects| ==> rects[k].Valid()
    ensures forall k :: 0 <= k < |EvalSubtraction(rects, r)| ==> EvalSubtraction(rects, r)[k].Valid()
    decreases |rects|
  {
    if |rects| > 0 {
      var init := rects[..|rects| - 1];
      SubtractionValid(init, r);
      var last := rects[|rects| - 1];
      SubtractCells(last, r);
      match last.Subtract(r)
      case None =>
      case Some(sub) =>
        var acc := EvalSubtraction(init, r);
        forall k | 0 <= k < |Union(sub, acc)| ensures Union(sub, acc)[k].Valid() {
          var u := Union(sub, acc)[k];
          if u in sub {
            var i :| 0 <= i < |sub| && sub[i] == u;
          } else {
            var i :| 0 <= i < |acc| && acc[i] == u;
          }
        }
    }
  }

  /** The operations of one kind, in order. */
  function OpRects(ops: seq<Op>, kind: OperationType): (r: seq<Rectangle>)
    ensures forall k :: 0 <= k < |r| ==> exists i :: 0 <= i < |ops| && ops[i] == Op(r[k], kind)
    ensures forall i :: 0 <= i < |ops| && ops[i].kind == kind ==> ops[i].rect in r
    decreases |ops|
  {
    if |ops| == 0 then []
    else
      var init := OpRects(ops[..|ops| - 1], kind);
      assert forall i :: 0 <= i < |ops| - 1 ==> ops[..|ops| - 1][i] == ops[i];
      if ops[|ops| - 1].kind == kind then init + [ops[|ops| - 1].rect] else init
  }

  /** The sum of the pieces' areas. */
  function TotalArea(rects: seq<Rectangle>): int
    decreases |rects|
  {
    if |rects| == 0 then 0 else TotalArea(rects[..|rects| - 1]) + rects[|rects| - 1].Area()
  }

  /** Every valid piece adds at least one to the total area. */
  lemma TotalAreaNonNegative(rects: seq<Rectangle>)
    requires forall k :: 0 <= k < |rects| ==> rects[k].Valid()
    ensures TotalArea(rects) >= |rects|
    decreases |rects|
  {
    if |rects| > 0 {
      var last := rects[|rects| - 1];
      TotalAreaNonNegative(rects[..|rects| - 1]);
      assert last.Width() >= 1 && last.Height() >= 1;
      assert last.Area() >= 1 by { MulAtLeastOne(last.Width(), last.Height()); }
    }
  }

  lemma MulAtLeastOne(a: int, b: int)
    requires a >= 1 && b >= 1
    ensures a * b >= 1
  {
  }

  class Region {
    var bounds: Rectangle
    var operationBounds: seq<Op>
    var cachedResults: Option<seq<Rectangle>>
    var invalidated: bool

    /** Operation rectangles are pairwise distinct, and a validated region has a cached result. */
    ghost predicate Valid()
      reads this
    {
      OpsDistinct(operationBounds) && (!invalidated ==> cachedResults.Some?)
    }

    constructor (newBounds: Rectangle)
      ensures Valid() && bounds == newBounds && operationBounds == [] && invalidated && cachedResults.None?
    {
      bounds := newBounds;
      operationBounds := [];
      cachedResults := None;
      invalidated := true;
    }

    /** The four-coordinate constructor. */
    constructor FromCoordinates(x: int, y: int, xx: int, yy: int)
      ensures Valid() && bounds == Rect(x, y, xx, yy) && operationBounds == [] && invalidated && cachedResults.None?
    {
      bounds := Rect(x, y, xx, yy);
      operationBounds := [];
      cachedResults := None;
      invalidated := true;
    }

    /** `Reset`, also the `Bounds` setter. */
    method Reset(newBounds: Rectangle)
      modifies this
      ensures Valid() && bounds == newBounds && operationBounds == [] && invalidated
      ensures cachedResults == old(cachedResults)
    {
      Clear();
      bounds := newBounds;
      invalidated := true;
    }

    method Clear()
      modifies this
      ensures Valid() && operationBounds == [] && invalidated
      ensures bounds == old(bounds) && cachedResults == old(cachedResults)
    {
      operationBounds := [];
      invalidated := true;
    }

    /** Ignored when the bounds contain `rect` and there are no operations yet; otherwise replaces any
        operation on `rect` by an Add at the end. */
    method Add(rect: Rectangle)
      requires Valid()
      modifies this
      ensures Valid()
      ensures old(bounds.Contains(rect) && |operationBounds| == 0) ==>
                operationBounds == old(operationBounds) && invalidated == old(invalidated)
      ensures !old(bounds.Contains(rect) && |operationBounds| == 0) ==>
                operationBounds == WithoutOp(old(operationBounds), rect) + [Op(rect, OperationType.Add)] && invalidated
      ensures bounds == old(bounds) && cachedResults == old(cachedResults)
    {
      if !bounds.Contains(rect) || |operationBounds| > 0 {
        WithoutOpDistinct(operationBounds, rect, OperationType.Add);
        RemoveOp(rect);
        operationBounds := operationBounds + [Op(rect, OperationType.Add)];
        invalidated := true;
      }
    }

    /** Replaces any operation on `rect` by a Subtract at the end. */
    method Subtract(rect: Rectangle)
      requires Valid()
      modifies this
      ensures Valid()
      ensures operationBounds == WithoutOp(old(operationBounds), rect) + [Op(rect, OperationType.Subtract)] && invalidated
      ensures bounds == old(bounds) && cachedResults == old(cachedResults)
    {
      WithoutOpDistinct(operationBounds, rect, OperationType.Subtract);
      RemoveOp(rect);
      operationBounds := operationBounds + [Op(rect, OperationType.Subtract)];
      invalidated := true;
    }

    /** Deletes the first operation whose four coordinates match; does not invalidate the cache. */
    method RemoveOp(rect: Rectangle)
      requires Valid()
      modifies this
      ensures Valid()
      ensures operationBounds == WithoutOp(old(operationBounds), rect)
      ensures bounds == old(bounds) && cachedResults == old(cachedResults) && invalidated == old(invalidated)
    {
      WithoutOpDistinct(operationBounds, rect, OperationType.Add);
      var n := 0;
      while n < |operationBounds|
        invariant 0 <= n <= |operationBounds|
        invariant forall i :: 0 <= i < n ==> operationBounds[i].rect != rect
        invariant operationBounds == old(operationBounds)
      {
        var cOp := operationBounds[n].rect;
        if cOp.X() == rect.X() && cOp.Y() == rect.Y() && cOp.XX() == rect.XX() && cOp.YY() == rect.YY() {
          assert cOp == rect;
          assert FindOp(operationBounds, rect) == n;
          operationBounds := operationBounds[..n] + operationBounds[n + 1..];
          return;
        }
        n := n + 1;
      }
    }

    /** The cached list while valid; otherwise `[bounds]` folded through the operations, stopping once no
        piece is left, and cached. A throwing addition leaves the region as it was. */
    method Evaluate() returns (r: Result<seq<Rectangle>>)
      requires Valid()
      modifies this
      ensures Valid()
      ensures bounds == old(bounds) && operationBounds == old(operationBounds)
      ensures !old(invalidated) ==> r == Ok(old(cachedResults).value) && cachedResults == old(cachedResults) && !invalidated
      ensures old(invalidated) ==> r == EvalOps(bounds, operationBounds)
      ensures old(invalidated) && r.Ok? ==> cachedResults == Some(r.value) && !invalidated
      ensures old(invalidated) && r.Throws? ==> cachedResults == old(cachedResults) && invalidated
    {
      if !invalidated {
        return Ok(cachedResults.value);
      }
      var ret := [bounds];
      var n := 0;
      while n < |operationBounds|
        invariant 0 <= n <= |operationBounds|
        invariant EvalOps(bounds, operationBounds[..n]) == Ok(ret)
        invariant unchanged(this)
      {
        var op := operationBounds[n];
        assert operationBounds[..n + 1][..n] == operationBounds[..n];
        if op.kind == OperationType.Add {
          var added := EvaluateAddition(ret, op.rect);
          if added.Throws? {
            assert EvalOps(bounds, operationBounds[..n + 1]).Throws?;
            ThrowsStaysThrown(bounds, operationBounds, n + 1);
            return added;
          }
          ret := added.value;
        } else {
          ret := EvaluateSubtraction(ret, op.rect);
        }
        n := n + 1;
        if |ret| == 0 {
          EmptyStaysEmpty(bounds, operationBounds, n);
          break;
        }
      }
      assert operationBounds[..|operationBounds|] == operationBounds;
      if n == |operationBounds| {
        assert EvalOps(bounds, operationBounds) == Ok(ret);
      }
      cachedResults := Some(ret);
      invalidated := false;
      return Ok(ret);
    }

    /** The loop of `EvaluateAddition`. */
    static method EvaluateAddition(rects: seq<Rectangle>, subtractedRect: Rectangle) returns (r: Result<seq<Rectangle>>)
      ensures r == EvalAddition(rects, subtractedRect)
    {
      var ret := [];
      var n := 0;
      while n < |rects|
        invariant 0 <= n <= |rects|
        invariant EvalAddition(rects[..n], subtractedRect) == Ok(ret)
      {
        assert rects[..n + 1][..n] == rects[..n];
        var subResults := rects[n].Add(subtractedRect);
        if subResults.Throws? {
          ThrowsStaysThrownAdd(rects, subtractedRect, n + 1);
          return subResults;
        }
        ret := Union(subResults.value, ret);
        n := n + 1;
      }
      assert rects[..n] == rects;
      return Ok(ret);
    }

    /** The loop of `EvaluateSubtraction`. */
    static method EvaluateSubtraction(rects: seq<Rectangle>, subtractedRect: Rectangle) returns (ret: seq<Rectangle>)
      ensures ret == EvalSubtraction(rects, subtractedRect)
    {
      ret := [];
      var n := 0;
      while n < |rects|
        invariant 0 <= n <= |rects|
        invariant EvalSubtraction(rects[..n], subtractedRect) == ret
      {
        assert rects[..n + 1][..n] == rects[..n];
        var subResults := rects[n].Subtract(subtractedRect);
        if subResults.Some? {
          ret := Union(subResults.value, ret);
        }
        n := n + 1;
      }
      assert rects[..n] == rects;
    }

    /** The `Area` property: the summed area of `Evaluate`'s pieces. */
    method Area() returns (r: Result<int>)
      requires Valid()
      modifies this
      ensures Valid()
      ensures bounds == old(bounds) && operationBounds == old(operationBounds)
      ensures old(invalidated) ==> r == match EvalOps(bounds, operationBounds)
                                       case Ok(rs) => Ok(TotalArea(rs))
                                       case Throws(e) => Throws(e)
      ensures !old(invalidated) ==> r == Ok(TotalArea(old(cachedResults).value))
    {
      var rectangles := Evaluate();
      if rectangles.Throws? {
        return Throws(rectangles.exception);
      }
      var totalArea := 0;
      var n := 0;
      while n < |rectangles.value|
        invariant 0 <= n <= |rectangles.value|
        invariant totalArea == TotalArea(rectangles.value[..n])
      {
        assert rectangles.value[..n + 1][..n] == rectangles.value[..n];
        totalArea := totalArea + rectangles.value[n].Area();
        n := n + 1;
      }
      assert rectangles.value[..n] == rectangles.value;
      return Ok(totalArea);
    }

    /** A new region with the same bounds and operations, invalidated and with no cache. */
    method Clone() returns (c: Region)
      requires Valid()
      ensures fresh(c) && c.Valid()
      ensures c.bounds == bounds && c.operationBounds == operationBounds && c.invalidated && c.cachedResults.None?
    {
      c := new Region(bounds.Clone());
      var n := 0;
      while n < |operationBounds|
        invariant 0 <= n <= |operationBounds|
        invariant c.operationBounds == operationBounds[..n] && c.bounds == bounds
        invariant c.invalidated && c.cachedResults.None?
      {
        var op := operationBounds[n];
        c.operationBounds := c.operationBounds + [Op(op.rect.Clone(), op.kind)];
        assert operationBounds[..n + 1] == operationBounds[..n] + [op];
        n := n + 1;
      }
      assert operationBounds[..n] == operationBounds;
      c.invalidated := true;
    }

    /** The rectangles of the operations of one kind, in order. */
    method GetOperationRects(kind: OperationType) returns (ret: seq<Rectangle>)
      ensures ret == OpRects(operationBounds, kind)
    {
      ret := [];
      var n := 0;
      while n < |operationBounds|
        invariant 0 <= n <= |operationBounds|
        invariant ret == OpRects(operationBounds[..n], kind)
      {
        assert operationBounds[..n + 1][..n] == operationBounds[..n];
        if operationBounds[n].kind == kind {
          ret := ret + [operationBounds[n].rect];
        }
        n := n + 1;
      }
      assert operationBounds[..n] == operationBounds;
    }
  }

  /** A throwing prefix makes the whole fold throw. */
  lemma {:induction false} ThrowsStaysThrown(bounds: Rectangle, ops: seq<Op>, n: nat)
    requires n <= |ops| && EvalOps(bounds, ops[..n]).Throws?
    ensures EvalOps(bounds, ops) == EvalOps(bounds, ops[..n])
    decreases |ops| - n
  {
    if n < |ops| {
      assert ops[..n + 1][..n] == ops[..n];
      ThrowsStaysThrown(bounds, ops, n + 1);
    } else {
      assert ops[..n] == ops;
    }
  }

  lemma {:induction false} ThrowsStaysThrownAdd(rects: seq<Rectangle>, r: Rectangle, n: nat)
    requires n <= |rects| && EvalAddition(rects[..n], r).Throws?
    ensures EvalAddition(rects, r) == EvalAddition(rects[..n], r)
    decreases |rects| - n
  {
    if n < |rects| {
      assert rects[..n + 1][..n] == rects[..n];
      ThrowsStaysThrownAdd(rects, r, n + 1);
    } else {
      assert rects[..n] == rects;
    }
  }

  /** A fresh region evaluates to its bounds alone. */
  lemma FreshRegionEvaluate(bounds: Rectangle)
    ensures EvalOps(bounds, []) == Ok([bounds])
  {
  }
}

/** What the overlap ratio means: on a grid, the share of unit cells that two boxes have in common. */
module BoxCells {
  import opened Boxes

  /** The intersection is the overlap ratio times the union, on the corners themselves. */
  lemma IouTimesUnion(a: BBox, b: BBox, addOne: bool, off: real, w: real, h: real, inter: real, areaA: real,
                      areaB: real)
    requires off == if addOne then 1.0 else 0.0
    requires w == (if a.x2 < b.x2 then a.x2 else b.x2) - (if a.x1 < b.x1 then b.x1 else a.x1) + off
    requires h == (if a.y2 < b.y2 then a.y2 else b.y2) - (if a.y1 < b.y1 then b.y1 else a.y1) + off
    requires inter == w * h && areaA == (a.x2 - a.x1 + off) * (a.y2 - a.y1 + off)
    requires areaB == (b.x2 - b.x1 + off) * (b.y2 - b.y1 + off)
    ensures Intersects(a, b, SizeOffset(addOne)) <==> w > 0.0 && h > 0.0
    ensures w > 0.0 && h > 0.0 ==> Iou(a, b, SizeOffset(addOne)) * (areaA + areaB - inter) == inter
  {
    hide Iou;
    assert w == OverlapWidth(a, b, off) && h == OverlapHeight(a, b, off);
    if Intersects(a, b, off) {
      RatioIs(a, b, off, inter, areaA, areaB);
    }
  }

  lemma RatioIs(a: BBox, b: BBox, off: real, inter: real, areaA: real, areaB: real)
    requires Intersects(a, b, off) && inter == OverlapWidth(a, b, off) * OverlapHeight(a, b, off)
    requires areaA == (a.x2 - a.x1 + off) * (a.y2 - a.y1 + off)
    requires areaB == (b.x2 - b.x1 + off) * (b.y2 - b.y1 + off)
    ensures Iou(a, b, off) * (areaA + areaB - inter) == inter
  {
    hide Iou;
    hide OverlapWidth;
    hide OverlapHeight;
    AreaIs(a, off, areaA);
    AreaIs(b, off, areaB);
    assert OverlapArea(a, b, off) == inter;
    IouDivides(a, b, off);
  }

  lemma AreaIs(a: BBox, off: real, area: real)
    requires area == (a.x2 - a.x1 + off) * (a.y2 - a.y1 + off)
    ensures Area(a, off) == area
  {
  }

  lemma IouDivides(a: BBox, b: BBox, off: real)
    requires Intersects(a, b, off)
    ensures Area(a, off) + Area(b, off) - OverlapArea(a, b, off) > 0.0
    ensures Iou(a, b, off) == OverlapArea(a, b, off) / (Area(a, off) + Area(b, off) - OverlapArea(a, b, off))
    ensures Iou(a, b, off) * (Area(a, off) + Area(b, off) - OverlapArea(a, b, off)) == OverlapArea(a, b, off)
  {
    hide Area;
    hide OverlapArea;
    hide Intersects;
    RatioInUnit(a, b, off);
    QuotientTimes(OverlapArea(a, b, off), Area(a, off) + Area(b, off) - OverlapArea(a, b, off));
  }

  lemma QuotientTimes(x: real, d: real)
    requires d > 0.0
    ensures (x / d) * d == x
  {
  }

  // ----- boxes with corners on a grid

  datatype Grid = Grid(x1: int, y1: int, x2: int, y2: int)

  predicate OnGrid(b: BBox, g: Grid) {
    b.x1 == g.x1 as real && b.y1 == g.y1 as real && b.x2 == g.x2 as real && b.y2 == g.y2 as real
  }

  /** The cells from column x1 to column x2 and from row y1 to row y2, without the last ones. */
  function Block(x1: int, y1: int, x2: int, y2: int): set<(int, int)> {
    set x: int, y: int | x1 <= x < x2 && y1 <= y < y2 :: (x, y)
  }

  /** The cells of a box: with bbox_size_add_one the corner x2, y2 names the last cell, else the first cell beyond. */
  function Cells(g: Grid, addOne: bool): set<(int, int)> {
    set x: int, y: int |
      && g.x1 <= x <= g.x2 && g.y1 <= y <= g.y2 && (addOne || (x != g.x2 && y != g.y2)) :: (x, y)
  }

  lemma {:induction false} ColumnSize(x: int, y1: int, y2: int)
    requires y1 <= y2
    ensures |Block(x, y1, x + 1, y2)| == y2 - y1
    decreases y2 - y1
  {
    if y1 < y2 {
      ColumnSize(x, y1, y2 - 1);
      assert Block(x, y1, x + 1, y2) == Block(x, y1, x + 1, y2 - 1) + {(x, y2 - 1)};
    } else {
      assert Block(x, y1, x + 1, y2) == {};
    }
  }

  lemma {:induction false} BlockSize(x1: int, y1: int, x2: int, y2: int)
    requires x1 <= x2 && y1 <= y2
    ensures |Block(x1, y1, x2, y2)| == (x2 - x1) * (y2 - y1)
    decreases x2 - x1
  {
    if x1 < x2 {
      BlockSize(x1, y1, x2 - 1, y2);
      ColumnSize(x2 - 1, y1, y2);
      assert Block(x1, y1, x2, y2) == Block(x1, y1, x2 - 1, y2) + Block(x2 - 1, y1, x2, y2);
      assert (x2 - x1) * (y2 - y1) == (x2 - 1 - x1) * (y2 - y1) + (y2 - y1);
    } else {
      assert Block(x1, y1, x2, y2) == {};
    }
  }

  function Low(a: int, b: int): int { if a < b then a else b }

  function High(a: int, b: int): int { if a < b then b else a }

  lemma ProductOfInts(a: int, b: int)
    ensures (a * b) as real == (a as real) * (b as real)
  {
  }

  /** On a grid the area of a box with positive sides is the number of its cells. */
  lemma AreaCountsCells(b: BBox, g: Grid, addOne: bool)
    requires OnGrid(b, g)
    requires b.x2 - b.x1 + SizeOffset(addOne) > 0.0 && b.y2 - b.y1 + SizeOffset(addOne) > 0.0
    ensures Area(b, SizeOffset(addOne)) == |Cells(g, addOne)| as real
  {
    var one := if addOne then 1 else 0;
    assert Cells(g, addOne) == Block(g.x1, g.y1, g.x2 + one, g.y2 + one);
    BlockSize(g.x1, g.y1, g.x2 + one, g.y2 + one);
    ProductOfInts(g.x2 + one - g.x1, g.y2 + one - g.y1);
  }

  /** On a grid two boxes meet exactly when they share a cell, and then the overlap ratio is the number of shared cells
      over the number of cells in either. */
  lemma IouCountsCells(a: BBox, b: BBox, g: Grid, h: Grid, addOne: bool)
    requires OnGrid(a, g) && OnGrid(b, h)
    ensures var off := SizeOffset(addOne);
      var shared, all := Cells(g, addOne) * Cells(h, addOne), Cells(g, addOne) + Cells(h, addOne);
      && (Intersects(a, b, off) <==> shared != {})
      && (Intersects(a, b, off) ==> all != {} && Iou(a, b, off) == |shared| as real / |all| as real)
  {
    hide Cells;
    hide Area;
    hide OverlapArea;
    hide Iou;
    var off, meet := SizeOffset(addOne), Meet(g, h);
    SharedCells(g, h, addOne);
    MeetHasCell(a, b, g, h, addOne);
    if Intersects(a, b, off) {
      MeetArea(a, b, g, h, addOne);
      AreaCountsCells(a, g, addOne);
      AreaCountsCells(b, h, addOne);
      IouDivides(a, b, off);
    }
  }

  /** The part that two boxes have in common. */
  function Meet(g: Grid, h: Grid): Grid {
    Grid(High(g.x1, h.x1), High(g.y1, h.y1), Low(g.x2, h.x2), Low(g.y2, h.y2))
  }

  lemma SharedCells(g: Grid, h: Grid, addOne: bool)
    ensures Cells(g, addOne) * Cells(h, addOne) == Cells(Meet(g, h), addOne)
  {
  }

  lemma MeetHasCell(a: BBox, b: BBox, g: Grid, h: Grid, addOne: bool)
    requires OnGrid(a, g) && OnGrid(b, h)
    ensures Intersects(a, b, SizeOffset(addOne)) <==> Cells(Meet(g, h), addOne) != {}
  {
    var meet := Meet(g, h);
    if Intersects(a, b, SizeOffset(addOne)) {
      assert (meet.x1, meet.y1) in Cells(meet, addOne);
    }
  }

  lemma MeetArea(a: BBox, b: BBox, g: Grid, h: Grid, addOne: bool)
    requires OnGrid(a, g) && OnGrid(b, h) && Intersects(a, b, SizeOffset(addOne))
    ensures OverlapArea(a, b, SizeOffset(addOne)) == |Cells(Meet(g, h), addOne)| as real
    ensures a.x2 - a.x1 + SizeOffset(addOne) > 0.0 && a.y2 - a.y1 + SizeOffset(addOne) > 0.0
    ensures b.x2 - b.x1 + SizeOffset(addOne) > 0.0 && b.y2 - b.y1 + SizeOffset(addOne) > 0.0
  {
    hide Cells;
    hide Times;
    var meet := Meet(g, h);
    var c := BBox(0.0, meet.x1 as real, meet.y1 as real, meet.x2 as real, meet.y2 as real, 0);
    AreaCountsCells(c, meet, addOne);
  }
}

/** The integer geometry of the Snake canvas: every item is drawn as a
    square inset inside its grid cell. Colours, glow and the flicker of the
    special food are presentation and are not modelled. */
module SnakeRender {
  import opened SnakeGame

  datatype Rect = Rect(x: int, y: int, w: int, h: int)

  const SegmentInset: int := 2
  const FoodInset: int := 3
  const SpecialInset: int := 1

  /** The square fillRect paints for an item in cell c. */
  function CellRect(c: Cell, inset: int): (r: Rect)
    requires InGrid(c) && 0 <= inset < GridSize / 2
    ensures r.w == r.h && r.w > 0
    ensures c.x * GridSize <= r.x && r.x + r.w <= (c.x + 1) * GridSize
    ensures c.y * GridSize <= r.y && r.y + r.h <= (c.y + 1) * GridSize
    ensures 0 <= r.x && r.x + r.w <= CanvasSize && 0 <= r.y && r.y + r.h <= CanvasSize
  {
    Rect(c.x * GridSize + inset, c.y * GridSize + inset, GridSize - 2 * inset, GridSize - 2 * inset)
  }

  predicate Disjoint(a: Rect, b: Rect) {
    a.x + a.w <= b.x || b.x + b.w <= a.x || a.y + a.h <= b.y || b.y + b.h <= a.y
  }

  /** Items in different cells never overlap on the canvas. */
  lemma DistinctCellsDisjoint(c: Cell, d: Cell, i: int, j: int)
    requires InGrid(c) && InGrid(d) && c != d
    requires 0 <= i < GridSize / 2 && 0 <= j < GridSize / 2
    ensures Disjoint(CellRect(c, i), CellRect(d, j))
  {
    if c.x < d.x {
      assert (c.x + 1) * GridSize <= d.x * GridSize;
    } else if d.x < c.x {
      assert (d.x + 1) * GridSize <= c.x * GridSize;
    } else if c.y < d.y {
      assert (c.y + 1) * GridSize <= d.y * GridSize;
    } else {
      assert (d.y + 1) * GridSize <= c.y * GridSize;
    }
  }

  /** The segments of a well-formed snake are painted as pairwise disjoint
      squares. */
  lemma SnakeSegmentsDisjoint(snake: seq<Cell>)
    requires WellFormed(snake)
    ensures forall a, b :: 0 <= a < b < |snake| ==>
              Disjoint(CellRect(snake[a], SegmentInset), CellRect(snake[b], SegmentInset))
  {
    forall a, b | 0 <= a < b < |snake|
      ensures Disjoint(CellRect(snake[a], SegmentInset), CellRect(snake[b], SegmentInset))
    {
      DistinctCellsDisjoint(snake[a], snake[b], SegmentInset, SegmentInset);
    }
  }
}

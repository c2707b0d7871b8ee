/** `sprite_position`: where a frame goes on the sheet. Offsets are measured
    from the centre of the sheet, x to the right and y upwards, and locate the
    centre of the frame; Blender's Transform node moves an image by such an
    offset. The `* 0.5` of the source is exact here (`real`). */
module Placement {
  import opened Arithmetic

  datatype Position = Position(x: real, y: real)

  /** Lines 51-57: frame `index` goes into column `index % columns` and row
      `index // columns`, row 0 at the top. */
  function SpritePosition(index: nat, columns: nat, rows: nat, spriteWidth: nat, spriteHeight: nat): Position
    requires columns >= 1
  {
    var imgWidth := spriteWidth * columns;
    var imgHeight := spriteHeight * rows;
    var x := ((index % columns) * spriteWidth) as real - imgWidth as real * 0.5;
    var y := ((index / columns) * spriteHeight) as real - imgHeight as real * 0.5;
    Position(spriteWidth as real * 0.5 + x, -1.0 * (spriteHeight as real * 0.5 + y))
  }

  lemma RealMul(a: int, b: int)
    ensures (a * b) as real == a as real * b as real
  {
  }

  lemma MulNonnegative(a: real, b: real)
    requires a >= 0.0 && b >= 0.0
    ensures a * b >= 0.0
  {
  }

  lemma MulMonotone(a: nat, b: int, c: int)
    requires b <= c
    ensures a * b <= a * c
  {
    assert a * c - a * b == a * (c - b);
  }

  /** Writing `k` as `m * q + r` with `0 <= r < m` determines `q` and `r`:
      they are `k / m` and `k % m`. */
  lemma DivModUnique(k: int, m: int, q: int, r: int)
    requires 0 < m && 0 <= r < m && k == m * q + r
    ensures k / m == q && k % m == r
  {
    assert k == m * (k / m) + k % m;
    assert m * (q - k / m) == k % m - r;
    MultipleInRange(m, q - k / m);
  }

  /** The offset is the centre of the frame's cell: column `c` spans
      `[c*w - w*columns/2, (c+1)*w - w*columns/2]` and row `r` spans
      `[h*rows/2 - (r+1)*h, h*rows/2 - r*h]`. */
  lemma PositionOfCell(index: nat, columns: nat, rows: nat, w: nat, h: nat)
    requires columns >= 1
    ensures SpritePosition(index, columns, rows, w, h).x
         == (index % columns) as real * w as real + w as real / 2.0 - w as real * columns as real / 2.0
    ensures SpritePosition(index, columns, rows, w, h).y
         == h as real * rows as real / 2.0 - (index / columns) as real * h as real - h as real / 2.0
  {
    RealMul(index % columns, w);
    RealMul(index / columns, h);
    RealMul(w, columns);
    RealMul(h, rows);
  }

  /** x depends on the column alone and y on the row alone; for frames of
      positive size the converse holds too: x tells the column and y the row. */
  lemma PositionByCell(i: nat, j: nat, columns: nat, rows: nat, w: nat, h: nat)
    requires columns >= 1
    ensures i % columns == j % columns ==> SpritePosition(i, columns, rows, w, h).x == SpritePosition(j, columns, rows, w, h).x
    ensures i / columns == j / columns ==> SpritePosition(i, columns, rows, w, h).y == SpritePosition(j, columns, rows, w, h).y
    ensures w > 0 && SpritePosition(i, columns, rows, w, h).x == SpritePosition(j, columns, rows, w, h).x ==> i % columns == j % columns
    ensures h > 0 && SpritePosition(i, columns, rows, w, h).y == SpritePosition(j, columns, rows, w, h).y ==> i / columns == j / columns
  {
    PositionOfCell(i, columns, rows, w, h);
    PositionOfCell(j, columns, rows, w, h);
  }

  /** The next frame of the same row sits one frame width further right. */
  lemma StepRight(index: nat, columns: nat, rows: nat, w: nat, h: nat)
    requires columns >= 1 && index % columns + 1 < columns
    ensures SpritePosition(index + 1, columns, rows, w, h).x == SpritePosition(index, columns, rows, w, h).x + w as real
    ensures SpritePosition(index + 1, columns, rows, w, h).y == SpritePosition(index, columns, rows, w, h).y
  {
    DivModUnique(index + 1, columns, index / columns, index % columns + 1);
    PositionOfCell(index, columns, rows, w, h);
    PositionOfCell(index + 1, columns, rows, w, h);
  }

  /** The frame one row further on sits one frame height lower. */
  lemma StepDown(index: nat, columns: nat, rows: nat, w: nat, h: nat)
    requires columns >= 1
    ensures SpritePosition(index + columns, columns, rows, w, h).x == SpritePosition(index, columns, rows, w, h).x
    ensures SpritePosition(index + columns, columns, rows, w, h).y == SpritePosition(index, columns, rows, w, h).y - h as real
  {
    DivModUnique(index + columns, columns, index / columns + 1, index % columns);
    PositionOfCell(index, columns, rows, w, h);
    PositionOfCell(index + columns, columns, rows, w, h);
  }

  /** Frame 0 is the top-left cell. */
  lemma FirstFrameTopLeft(columns: nat, rows: nat, w: nat, h: nat)
    requires columns >= 1
    ensures SpritePosition(0, columns, rows, w, h)
         == Position(-(columns - 1) as real * w as real / 2.0, (rows - 1) as real * h as real / 2.0)
  {
    PositionOfCell(0, columns, rows, w, h);
  }

  /** The row of a frame is below `rows` exactly when the frame is within
      the grid's capacity. */
  lemma RowInGrid(index: nat, columns: nat, rows: nat)
    requires columns >= 1
    ensures index < columns * rows <==> index / columns < rows
  {
    var q, r := index / columns, index % columns;
    assert index == columns * q + r;
    if q < rows {
      MulMonotone(columns, q + 1, rows);
      assert columns * (q + 1) == columns * q + columns;
    } else {
      MulMonotone(columns, rows, q);
    }
  }

  /** Within capacity, the frame's rectangle lies inside the sheet of
      `columns` by `rows` frames, centred on the origin. */
  lemma InsideSheet(index: nat, columns: nat, rows: nat, w: nat, h: nat)
    requires columns >= 1 && index < columns * rows
    ensures var p, halfW, halfH := SpritePosition(index, columns, rows, w, h),
                                   w as real * columns as real / 2.0, h as real * rows as real / 2.0;
            -halfW <= p.x - w as real / 2.0 && p.x + w as real / 2.0 <= halfW &&
            -halfH <= p.y - h as real / 2.0 && p.y + h as real / 2.0 <= halfH
  {
    RowInGrid(index, columns, rows);
    PositionOfCell(index, columns, rows, w, h);
    var c, r, W, H := (index % columns) as real, (index / columns) as real, w as real, h as real;
    MulNonnegative(columns as real - c - 1.0, W);
    MulNonnegative(rows as real - r - 1.0, H);
    MulNonnegative(c, W);
    MulNonnegative(r, H);
  }

  /** Beyond capacity the frame lies wholly below the sheet: its top edge is
      at or under the sheet's bottom edge, so nothing of it shows. */
  lemma OverflowBelowSheet(index: nat, columns: nat, rows: nat, w: nat, h: nat)
    requires columns >= 1 && index >= columns * rows
    ensures SpritePosition(index, columns, rows, w, h).y + h as real / 2.0 <= -(h as real * rows as real / 2.0)
  {
    RowInGrid(index, columns, rows);
    PositionOfCell(index, columns, rows, w, h);
    var r, H := (index / columns) as real, h as real;
    MulNonnegative(r - rows as real, H);
  }

  /** Different frames have different cells. */
  lemma CellsDiffer(i: nat, j: nat, columns: nat)
    requires columns >= 1 && i != j
    ensures i % columns != j % columns || i / columns != j / columns
  {
    assert i == columns * (i / columns) + i % columns;
    assert j == columns * (j / columns) + j % columns;
  }

  /** Frames whose columns differ by at least one are at least a frame
      width apart. */
  lemma ColumnsApart(i: nat, j: nat, columns: nat, rows: nat, w: nat, h: nat)
    requires columns >= 1 && i % columns < j % columns
    ensures SpritePosition(j, columns, rows, w, h).x - SpritePosition(i, columns, rows, w, h).x >= w as real
  {
    PositionOfCell(i, columns, rows, w, h);
    PositionOfCell(j, columns, rows, w, h);
    var a, b, W := (i % columns) as real, (j % columns) as real, w as real;
    MulNonnegative(b - a - 1.0, W);
    assert b * W - a * W >= W;
  }

  /** Frames whose rows differ by at least one are at least a frame height
      apart. */
  lemma RowsApart(i: nat, j: nat, columns: nat, rows: nat, w: nat, h: nat)
    requires columns >= 1 && i / columns < j / columns
    ensures SpritePosition(i, columns, rows, w, h).y - SpritePosition(j, columns, rows, w, h).y >= h as real
  {
    PositionOfCell(i, columns, rows, w, h);
    PositionOfCell(j, columns, rows, w, h);
    var a, b, H := (i / columns) as real, (j / columns) as real, h as real;
    MulNonnegative(b - a - 1.0, H);
    assert b * H - a * H >= H;
  }

  /** Two different frames never share a cell: their centres are at least a
      frame width apart across or a frame height apart vertically, so the
      rectangles of frames in the grid do not overlap. */
  lemma DistinctFramesApart(i: nat, j: nat, columns: nat, rows: nat, w: nat, h: nat)
    requires columns >= 1 && i != j
    ensures var p, q := SpritePosition(i, columns, rows, w, h), SpritePosition(j, columns, rows, w, h);
            p.x - q.x >= w as real || q.x - p.x >= w as real ||
            p.y - q.y >= h as real || q.y - p.y >= h as real
  {
    CellsDiffer(i, j, columns);
    if i % columns < j % columns {
      ColumnsApart(i, j, columns, rows, w, h);
    } else if j % columns < i % columns {
      ColumnsApart(j, i, columns, rows, w, h);
    } else if i / columns < j / columns {
      RowsApart(i, j, columns, rows, w, h);
    } else {
      RowsApart(j, i, columns, rows, w, h);
    }
  }
}

/**
 The candidate window: the box measured by the host, the cells it paints, and the moves of
 the highlighted cell in the text service. Lengths are real numbers.
 */
module CandidateGrid {
  const MARGIN: real := 10.0
  const ROW_SPACING: real := 4.0
  const COL_SPACING: real := 8.0

  /** Width and height of a piece of text; the measuring library returns no negative ones. */
  datatype Metrics = Metrics(width: real, height: real)

  datatype Box = Box(width: real, height: real, selkeyWidth: real, textWidth: real, itemHeight: real)

  datatype Rect = Rect(left: real, top: real, right: real, bottom: real)

  function Max(a: real, b: real): real {
    if a < b then b else a
  }

  predicate Measured(ms: seq<Metrics>) {
    forall i | 0 <= i < |ms| :: ms[i].width >= 0.0 && ms[i].height >= 0.0
  }

  // ----- Measuring -----

  /** Candidates in one row of the measured box. */
  function MeasuredColumns(items: nat, candPerRow: nat): (n: nat)
    ensures n >= 1
    ensures items > 0 && candPerRow > 0 ==> n <= items && n <= candPerRow && (n == items || n == candPerRow)
    ensures items == 0 || candPerRow == 0 ==> n == 1
  {
    var least := if items < candPerRow then items else candPerRow;
    if least < 1 then 1 else least
  }

  /** Division rounded up, at least one. */
  function MeasuredRows(items: nat, columns: nat): (rows: nat)
    requires columns >= 1
    ensures rows >= 1 && items <= rows * columns
    ensures rows == 1 || (rows - 1) * columns < items
  {
    if items <= columns then 1 else 1 + MeasuredRows(items - columns, columns)
  }

  /** The length of `n` pieces with gaps between them and a margin at both ends. */
  function Extent(n: nat, size: real, gap: real): real
    requires n >= 1
  {
    n as real * size + (n - 1) as real * gap + 2.0 * MARGIN
  }

  /** What calculate_client_rect makes of the measured lengths. */
  predicate Fits(box: Box, items: nat, candPerRow: nat) {
    var columns := MeasuredColumns(items, candPerRow);
    var rows := MeasuredRows(items, columns);
    && box.selkeyWidth >= 1.0 && box.textWidth >= 0.0 && box.itemHeight >= 0.0
    && box.width == Extent(columns, box.selkeyWidth + box.textWidth, COL_SPACING)
    && box.height == Extent(rows, box.itemHeight, ROW_SPACING)
  }

  /** The lengths are the least ones in which every pair of a key and a text fits. */
  predicate Largest(
    selkeys: seq<Metrics>, texts: seq<Metrics>, n: nat, selkeyWidth: real, textWidth: real, itemHeight: real)
    requires n <= |selkeys| && n <= |texts|
  {
    && selkeyWidth >= 0.0 && textWidth >= 0.0 && itemHeight >= 0.0
    && (forall i | 0 <= i < n ::
          && selkeys[i].width <= selkeyWidth && texts[i].width <= textWidth
          && selkeys[i].height <= itemHeight && texts[i].height <= itemHeight)
    && (selkeyWidth == 0.0 || exists i | 0 <= i < n :: selkeys[i].width == selkeyWidth)
    && (textWidth == 0.0 || exists i | 0 <= i < n :: texts[i].width == textWidth)
    && (itemHeight == 0.0 || exists i | 0 <= i < n :: selkeys[i].height == itemHeight || texts[i].height == itemHeight)
  }

  function Pairs(selkeys: seq<Metrics>, texts: seq<Metrics>): nat {
    if |selkeys| < |texts| then |selkeys| else |texts|
  }

  /** The running maxima of calculate_client_rect, over the keys and texts that pair up. */
  method LargestMetrics(selkeys: seq<Metrics>, texts: seq<Metrics>)
    returns (selkeyWidth: real, textWidth: real, itemHeight: real)
    requires Measured(selkeys) && Measured(texts)
    ensures Largest(selkeys, texts, Pairs(selkeys, texts), selkeyWidth, textWidth, itemHeight)
  {
    selkeyWidth, textWidth, itemHeight := 0.0, 0.0, 0.0;
    for i := 0 to Pairs(selkeys, texts)
      invariant Largest(selkeys, texts, i, selkeyWidth, textWidth, itemHeight)
    {
      selkeyWidth := Max(selkeyWidth, selkeys[i].width);
      textWidth := Max(textWidth, texts[i].width);
      itemHeight := Max(Max(itemHeight, texts[i].height), selkeys[i].height);
    }
  }

  /** calculate_client_rect up to the page number. */
  method CalculateClientRect(selkeys: seq<Metrics>, texts: seq<Metrics>, candPerRow: nat) returns (box: Box)
    requires Measured(selkeys) && Measured(texts)
    ensures Fits(box, |texts|, candPerRow)
    ensures Largest(selkeys, texts, Pairs(selkeys, texts), box.selkeyWidth - 1.0, box.textWidth, box.itemHeight)
  {
    var selkeyWidth, textWidth, itemHeight := LargestMetrics(selkeys, texts);
    selkeyWidth := selkeyWidth + 1.0;
    var columns := MeasuredColumns(|texts|, candPerRow);
    var rows := MeasuredRows(|texts|, columns);
    var width := Extent(columns, selkeyWidth + textWidth, COL_SPACING);
    var height := Extent(rows, itemHeight, ROW_SPACING);
    box := Box(width, height, selkeyWidth, textWidth, itemHeight);
  }

  // ----- Painting -----

  /** Candidates in one row of the painted grid: the column counter wraps after at least one. */
  function PaintedColumns(candPerRow: nat): (n: nat)
    ensures n >= 1
  {
    if candPerRow == 0 then 1 else candPerRow
  }

  function Column(i: nat, candPerRow: nat): nat {
    i % PaintedColumns(candPerRow)
  }

  function Row(i: nat, candPerRow: nat): nat {
    i / PaintedColumns(candPerRow)
  }

  /** Where piece `k` begins, counted from the first one. */
  function Offset(k: nat, size: real, gap: real): real {
    k as real * (size + gap)
  }

  function ColumnLeft(column: nat, box: Box): real {
    MARGIN + Offset(column, box.selkeyWidth + box.textWidth, COL_SPACING)
  }

  function RowTop(row: nat, box: Box): real {
    MARGIN + Offset(row, box.itemHeight, ROW_SPACING)
  }

  function CellAt(row: nat, column: nat, box: Box): Rect {
    var left, top := ColumnLeft(column, box), RowTop(row, box);
    Rect(left, top, left + box.selkeyWidth + box.textWidth, top + box.itemHeight)
  }

  function Cell(i: nat, candPerRow: nat, box: Box): Rect {
    CellAt(Row(i, candPerRow), Column(i, candPerRow), box)
  }

  /** The position after one more cell, by the counters of on_paint. */
  lemma NextCell(i: nat, candPerRow: nat)
    ensures var c, r := Column(i, candPerRow), Row(i, candPerRow);
            if c + 1 >= candPerRow then Column(i + 1, candPerRow) == 0 && Row(i + 1, candPerRow) == r + 1
            else Column(i + 1, candPerRow) == c + 1 && Row(i + 1, candPerRow) == r
  {
    var n := PaintedColumns(candPerRow);
    var c, r := i % n, i / n;
    assert i == r * n + c;
    if c + 1 >= n {
      assert i + 1 == (r + 1) * n;
      DivModUnique(i + 1, n, r + 1, 0);
    } else {
      DivModUnique(i + 1, n, r, c + 1);
    }
  }

  lemma Multiple(k: int, n: nat)
    ensures k >= 1 ==> k * n >= n
    ensures k <= -1 ==> k * n + n <= 0
  {
  }

  lemma DivModUnique(a: nat, n: nat, q: nat, r: nat)
    requires n > 0 && r < n && a == q * n + r
    ensures a / n == q && a % n == r
  {
    var k := a / n - q;
    assert k * n == r - a % n;
    Multiple(k, n);
  }

  lemma StepRight(column: nat, box: Box)
    ensures ColumnLeft(column + 1, box) == ColumnLeft(column, box) + (box.selkeyWidth + box.textWidth + COL_SPACING)
  {
  }

  lemma StepDown(row: nat, box: Box)
    ensures RowTop(row + 1, box) == RowTop(row, box) + (box.itemHeight + ROW_SPACING)
  {
  }

  /** The placement loop of on_paint. */
  method OnPaint(items: nat, candPerRow: nat, box: Box) returns (cells: seq<Rect>)
    ensures |cells| == items
    ensures forall i | 0 <= i < items :: cells[i] == Cell(i, candPerRow, box)
  {
    cells := [];
    var col, x, y := 0, MARGIN, MARGIN;
    ghost var row := 0;
    for i := 0 to items
      invariant |cells| == i && forall j | 0 <= j < i :: cells[j] == Cell(j, candPerRow, box)
      invariant col == Column(i, candPerRow) && row == Row(i, candPerRow)
      invariant x == ColumnLeft(col, box) && y == RowTop(row, box)
    {
      cells := cells + [Rect(x, y, x + box.selkeyWidth + box.textWidth, y + box.itemHeight)];
      NextCell(i, candPerRow);
      StepRight(col, box);
      StepDown(row, box);
      col := col + 1;
      if col >= candPerRow {
        col, row := 0, row + 1;
        x := MARGIN;
        y := y + (box.itemHeight + ROW_SPACING);
      } else {
        x := x + (box.selkeyWidth + box.textWidth + COL_SPACING);
      }
    }
  }

  // ----- The painted cells fit the measured box -----

  /** A multiple of a step does not exceed a larger multiple. */
  lemma Scale(a: nat, b: nat, step: real)
    requires a <= b && step >= 0.0
    ensures 0.0 <= a as real * step <= b as real * step
  {
  }

  /** A painted cell is in a column and a row that the measured box has. */
  lemma GridPosition(i: nat, items: nat, candPerRow: nat)
    requires i < items
    ensures var columns := MeasuredColumns(items, candPerRow);
            Column(i, candPerRow) < columns && Row(i, candPerRow) < MeasuredRows(items, columns)
  {
    var n, columns := PaintedColumns(candPerRow), MeasuredColumns(items, candPerRow);
    if candPerRow > items {
      DivModUnique(i, n, 0, i);
    } else {
      assert n == columns;
      RowBound(i, n, MeasuredRows(items, columns));
    }
  }

  lemma RowBound(i: nat, n: nat, rows: nat)
    requires n > 0 && i < rows * n
    ensures i / n < rows
  {
    var q := i / n;
    assert q * n <= i;
    assert (rows - q) * n > 0;
  }

  lemma ColumnInside(column: nat, columns: nat, box: Box)
    requires column < columns && box.selkeyWidth >= 0.0 && box.textWidth >= 0.0
    ensures MARGIN <= ColumnLeft(column, box)
    ensures ColumnLeft(column, box) + box.selkeyWidth + box.textWidth
         <= Extent(columns, box.selkeyWidth + box.textWidth, COL_SPACING) - MARGIN
  {
    PieceInside(column, columns, box.selkeyWidth + box.textWidth, COL_SPACING);
  }

  lemma RowInside(row: nat, rows: nat, box: Box)
    requires row < rows && box.itemHeight >= 0.0
    ensures MARGIN <= RowTop(row, box)
    ensures RowTop(row, box) + box.itemHeight <= Extent(rows, box.itemHeight, ROW_SPACING) - MARGIN
  {
    PieceInside(row, rows, box.itemHeight, ROW_SPACING);
  }

  /** One of `n` pieces with gaps between them lies between the margins. */
  lemma PieceInside(k: nat, n: nat, size: real, gap: real)
    requires k < n && size >= 0.0 && gap >= 0.0
    ensures 0.0 <= Offset(k, size, gap)
    ensures MARGIN + Offset(k, size, gap) + size <= Extent(n, size, gap) - MARGIN
  {
    var step := size + gap;
    Scale(k, n - 1, step);
    LastMultiple(n, size, gap);
    assert (n - 1) as real * step + size == n as real * size + (n - 1) as real * gap;
    assert k as real * step <= (n - 1) as real * step;
  }

  /** Every painted cell lies inside the margins of the measured box, for any item count and row width. */
  lemma CellsInsideMargins(i: nat, items: nat, candPerRow: nat, box: Box)
    requires i < items && Fits(box, items, candPerRow)
    ensures var c := Cell(i, candPerRow, box);
            && MARGIN <= c.left && c.right <= box.width - MARGIN
            && MARGIN <= c.top && c.bottom <= box.height - MARGIN
  {
    var columns := MeasuredColumns(items, candPerRow);
    GridPosition(i, items, candPerRow);
    ColumnInside(Column(i, candPerRow), columns, box);
    RowInside(Row(i, candPerRow), MeasuredRows(items, columns), box);
  }

  /** The box is not larger than that: the last column and the last row reach its margins. */
  lemma BoxIsTight(items: nat, candPerRow: nat, box: Box)
    requires items > 0 && Fits(box, items, candPerRow)
    ensures var columns := MeasuredColumns(items, candPerRow);
            && columns <= items
            && Cell(columns - 1, candPerRow, box).right == box.width - MARGIN
            && Cell(items - 1, candPerRow, box).bottom == box.height - MARGIN
  {
    LastColumn(items, candPerRow);
    LastRow(items, candPerRow);
    RightEnd(MeasuredColumns(items, candPerRow), box.selkeyWidth + box.textWidth, COL_SPACING);
    RightEnd(MeasuredRows(items, MeasuredColumns(items, candPerRow)), box.itemHeight, ROW_SPACING);
  }

  /** The last of `n` pieces ends at the margin. */
  lemma RightEnd(n: nat, size: real, gap: real)
    requires n >= 1
    ensures MARGIN + Offset(n - 1, size, gap) + size == Extent(n, size, gap) - MARGIN
  {
    LastMultiple(n, size, gap);
  }

  lemma LastColumn(items: nat, candPerRow: nat)
    requires items > 0
    ensures var columns := MeasuredColumns(items, candPerRow);
            columns <= items && Column(columns - 1, candPerRow) == columns - 1
  {
    var columns := MeasuredColumns(items, candPerRow);
    DivModUnique(columns - 1, PaintedColumns(candPerRow), 0, columns - 1);
  }

  lemma LastRow(items: nat, candPerRow: nat)
    requires items > 0
    ensures Row(items - 1, candPerRow) == MeasuredRows(items, MeasuredColumns(items, candPerRow)) - 1
  {
    var n, columns := PaintedColumns(candPerRow), MeasuredColumns(items, candPerRow);
    var rows := MeasuredRows(items, columns);
    if candPerRow > items {
      DivModUnique(items - 1, n, 0, items - 1);
    } else {
      assert n == columns;
      var r := items - 1 - (rows - 1) * n;
      assert rows * n == (rows - 1) * n + n;
      DivModUnique(items - 1, n, rows - 1, r);
    }
  }

  lemma LastMultiple(n: nat, size: real, gap: real)
    requires n >= 1
    ensures (n - 1) as real * (size + gap) + size == n as real * size + (n - 1) as real * gap
  {
    var m := (n - 1) as real;
    assert n as real == m + 1.0;
    assert m * (size + gap) == m * size + m * gap;
    assert (m + 1.0) * size == m * size + size;
  }

  predicate Disjoint(a: Rect, b: Rect) {
    a.right <= b.left || b.right <= a.left || a.bottom <= b.top || b.bottom <= a.top
  }

  /** Painted cells do not overlap. */
  lemma CellsDisjoint(i: nat, j: nat, candPerRow: nat, box: Box)
    requires i != j && box.selkeyWidth >= 0.0 && box.textWidth >= 0.0 && box.itemHeight >= 0.0
    ensures Disjoint(Cell(i, candPerRow, box), Cell(j, candPerRow, box))
  {
    var n := PaintedColumns(candPerRow);
    assert i == Row(i, candPerRow) * n + Column(i, candPerRow);
    assert j == Row(j, candPerRow) * n + Column(j, candPerRow);
    if Row(i, candPerRow) != Row(j, candPerRow) {
      RowsApart(Row(i, candPerRow), Row(j, candPerRow), box);
      RowsApart(Row(j, candPerRow), Row(i, candPerRow), box);
    } else {
      ColumnsApart(Column(i, candPerRow), Column(j, candPerRow), box);
      ColumnsApart(Column(j, candPerRow), Column(i, candPerRow), box);
    }
  }

  lemma RowsApart(a: nat, b: nat, box: Box)
    requires box.itemHeight >= 0.0
    ensures a < b ==> RowTop(a, box) + box.itemHeight <= RowTop(b, box)
  {
    if a < b {
      StepDown(a, box);
      Scale(a + 1, b, box.itemHeight + ROW_SPACING);
    }
  }

  lemma ColumnsApart(a: nat, b: nat, box: Box)
    requires box.selkeyWidth >= 0.0 && box.textWidth >= 0.0
    ensures a < b ==> ColumnLeft(a, box) + box.selkeyWidth + box.textWidth <= ColumnLeft(b, box)
  {
    if a < b {
      StepRight(a, box);
      Scale(a + 1, b, box.selkeyWidth + box.textWidth + COL_SPACING);
    }
  }

  // ----- Moving the selection -----

  datatype Keysym = KeyUp | KeyDown | KeyLeft | KeyRight | KeyReturn | KeyOther

  datatype FilterKeyResult = Handled | HandledCommit | NotHandled

  const MAX_USIZE: nat := 0xFFFF_FFFF_FFFF_FFFF

  /** The number of items minus one, in machine words: an empty list wraps around to the largest word. */
  function LastItem(items: nat): nat {
    if items == 0 then MAX_USIZE else items - 1
  }

  function Min(a: nat, b: nat): nat {
    if a < b then a else b
  }

  /** The selection after a key. */
  function Moved(ksym: Keysym, sel: nat, items: nat, candPerRow: nat, uiless: bool): nat {
    var back := if sel == 0 then 0 else sel - 1;
    var on := Min(Min(sel + 1, MAX_USIZE), LastItem(items));
    if uiless then
      match ksym
      case KeyDown => on
      case KeyRight => on
      case KeyUp => back
      case KeyLeft => back
      case _ => sel
    else
      match ksym
      case KeyUp => if sel >= candPerRow then sel - candPerRow else sel
      case KeyDown => if sel + candPerRow < items then sel + candPerRow else sel
      case KeyLeft => if candPerRow > 1 then back else sel
      case KeyRight => if candPerRow > 1 then on else sel
      case _ => sel
  }

  /** The keys that move the selection on by one item. */
  predicate MovesOn(ksym: Keysym, candPerRow: nat, uiless: bool) {
    if uiless then ksym.KeyDown? || ksym.KeyRight? else ksym.KeyRight? && candPerRow > 1
  }

  /**
   A selection in range stays in range. A selection at the first place of an empty list stays
   there if and only if the key does not move on: then it wraps around to a second place that
   does not exist either.
   */
  lemma SelectionStaysInRange(ksym: Keysym, sel: nat, items: nat, candPerRow: nat, uiless: bool)
    requires items <= MAX_USIZE
    ensures sel < items ==> Moved(ksym, sel, items, candPerRow, uiless) < items
    ensures items == 0 && sel == 0 ==>
              (Moved(ksym, sel, items, candPerRow, uiless) == 0 <==> !MovesOn(ksym, candPerRow, uiless))
  {
  }

  /** The candidate list of the text service. */
  class CandidateList {
    var items: nat
    var candPerRow: nat
    var currentSel: nat
    var uiless: bool

    constructor (uiless: bool)
      ensures this.uiless == uiless && items == 0 && currentSel == 0
    {
      this.uiless, items, candPerRow, currentSel := uiless, 0, 0, 0;
    }

    method SetModel(items: nat, candPerRow: nat, currentSel: nat)
      modifies this
      ensures this.items == items && this.candPerRow == candPerRow && this.currentSel == currentSel
      ensures uiless == old(uiless)
    {
      this.items, this.candPerRow, this.currentSel := items, candPerRow, currentSel;
    }

    /** filter_key_event; a selection in range stays in range and only a change counts as handled. */
    method FilterKeyEvent(ksym: Keysym) returns (res: FilterKeyResult)
      modifies `currentSel
      ensures old(currentSel) < items ==> currentSel < items
      ensures currentSel == Moved(ksym, old(currentSel), items, candPerRow, uiless)
      ensures res == if currentSel != old(currentSel) then Handled
                     else if ksym.KeyReturn? then HandledCommit else NotHandled
    {
      res := NotHandled;
      var oldSel := currentSel;
      if uiless {
        match ksym {
          case KeyDown | KeyRight => currentSel := Min(Min(currentSel + 1, MAX_USIZE), LastItem(items));
          case KeyUp | KeyLeft => currentSel := if currentSel == 0 then 0 else currentSel - 1;
          case KeyReturn => res := HandledCommit;
          case KeyOther => res := NotHandled;
        }
      } else {
        match ksym {
          case KeyUp =>
            if currentSel >= candPerRow {
              currentSel := currentSel - candPerRow;
            }
          case KeyDown =>
            if currentSel + candPerRow < items {
              currentSel := currentSel + candPerRow;
            }
          case KeyLeft =>
            if candPerRow > 1 {
              currentSel := if currentSel == 0 then 0 else currentSel - 1;
            }
          case KeyRight =>
            if candPerRow > 1 {
              currentSel := Min(Min(currentSel + 1, MAX_USIZE), LastItem(items));
            }
          case KeyReturn => res := HandledCommit;
          case KeyOther => res := NotHandled;
        }
      }
      if currentSel != oldSel {
        res := Handled;
      }
    }
  }

  /**
   A windowed UP or DOWN that changes the selection moves the highlighted cell by exactly one
   row in the same column of the painted grid; UP and DOWN undo each other.
   */
  lemma VerticalMove(sel: nat, items: nat, candPerRow: nat, box: Box)
    requires sel < items
    ensures var up := Moved(KeyUp, sel, items, candPerRow, false);
            up != sel ==>
              && Column(up, candPerRow) == Column(sel, candPerRow) && Row(up, candPerRow) + 1 == Row(sel, candPerRow)
              && Cell(up, candPerRow, box).left == Cell(sel, candPerRow, box).left
              && Cell(up, candPerRow, box).top + box.itemHeight + ROW_SPACING == Cell(sel, candPerRow, box).top
              && Moved(KeyDown, up, items, candPerRow, false) == sel
    ensures var down := Moved(KeyDown, sel, items, candPerRow, false);
            down != sel ==>
              && Column(down, candPerRow) == Column(sel, candPerRow)
              && Row(down, candPerRow) == Row(sel, candPerRow) + 1
              && Cell(down, candPerRow, box).left == Cell(sel, candPerRow, box).left
              && Cell(down, candPerRow, box).top == Cell(sel, candPerRow, box).top + box.itemHeight + ROW_SPACING
              && Moved(KeyUp, down, items, candPerRow, false) == sel
  {
    if candPerRow > 0 {
      OneRowDown(sel, candPerRow, box);
      if sel >= candPerRow {
        OneRowDown(sel - candPerRow, candPerRow, box);
      }
    }
  }

  /** `below` is the item one row down in the same column. */
  predicate Below(below: nat, sel: nat, candPerRow: nat) {
    Row(below, candPerRow) == Row(sel, candPerRow) + 1 && Column(below, candPerRow) == Column(sel, candPerRow)
  }

  lemma BelowIff(below: nat, sel: nat, n: nat)
    requires n > 0
    ensures Below(below, sel, n) <==> below == sel + n
  {
    var q, r := sel / n, sel % n;
    assert sel == q * n + r;
    assert sel + n == (q + 1) * n + r;
    DivModUnique(sel + n, n, q + 1, r);
    if Below(below, sel, n) {
      assert below == (below / n) * n + below % n;
    }
  }

  lemma FirstRowIff(sel: nat, n: nat)
    requires n > 0
    ensures Row(sel, n) > 0 <==> sel >= n
  {
    if sel < n {
      DivModUnique(sel, n, 0, sel);
    } else {
      assert sel == (sel / n) * n + sel % n;
    }
  }

  /** When the windowed vertical keys move: UP unless in the first row, DOWN while there is an item one row below. */
  lemma VerticalMovesIff(sel: nat, items: nat, candPerRow: nat)
    requires sel < items && candPerRow > 0
    ensures Moved(KeyUp, sel, items, candPerRow, false) != sel <==> Row(sel, candPerRow) > 0
    ensures Moved(KeyDown, sel, items, candPerRow, false) != sel
       <==> exists below | 0 <= below < items :: Below(below, sel, candPerRow)
  {
    FirstRowIff(sel, candPerRow);
    BelowIff(sel + candPerRow, sel, candPerRow);
    forall below | 0 <= below < items && Below(below, sel, candPerRow) ensures below == sel + candPerRow {
      BelowIff(below, sel, candPerRow);
    }
  }

  /** The other keys move by one item, if there is one and they are not bound to rows of a single item. */
  lemma SideMoves(sel: nat, items: nat, candPerRow: nat)
    requires sel < items <= MAX_USIZE
    ensures Moved(KeyLeft, sel, items, candPerRow, false) == if candPerRow > 1 && sel > 0 then sel - 1 else sel
    ensures Moved(KeyRight, sel, items, candPerRow, false) == if candPerRow > 1 && sel + 1 < items then sel + 1 else sel
    ensures Moved(KeyUp, sel, items, candPerRow, true) == Moved(KeyLeft, sel, items, candPerRow, true)
    ensures Moved(KeyLeft, sel, items, candPerRow, true) == if sel > 0 then sel - 1 else sel
    ensures Moved(KeyDown, sel, items, candPerRow, true) == Moved(KeyRight, sel, items, candPerRow, true)
    ensures Moved(KeyRight, sel, items, candPerRow, true) == if sel + 1 < items then sel + 1 else sel
    ensures forall uiless :: Moved(KeyReturn, sel, items, candPerRow, uiless) == sel
                             && Moved(KeyOther, sel, items, candPerRow, uiless) == sel
  {
  }

  lemma OneRowDown(sel: nat, candPerRow: nat, box: Box)
    requires candPerRow > 0
    ensures Column(sel + candPerRow, candPerRow) == Column(sel, candPerRow)
    ensures Row(sel + candPerRow, candPerRow) == Row(sel, candPerRow) + 1
    ensures Cell(sel + candPerRow, candPerRow, box).left == Cell(sel, candPerRow, box).left
    ensures Cell(sel + candPerRow, candPerRow, box).top == Cell(sel, candPerRow, box).top + box.itemHeight + ROW_SPACING
  {
    var q, r := sel / candPerRow, sel % candPerRow;
    assert sel + candPerRow == (q + 1) * candPerRow + r;
    DivModUnique(sel + candPerRow, candPerRow, q + 1, r);
    StepDown(q, box);
  }
}

/** A grid layout: components sit in cells of a fixed number of rows and columns; every
    column is as wide as its widest component and every row as tall as its tallest, with a
    fixed spacing between neighbouring cells and a margin around the whole grid. */
module GridLayout {
  import opened Vectors
  import opened GuiCommon
  import opened LayoutMath

  /** A cell of the grid: empty (a null entry) or holding a component. */
  datatype Cell = Empty | Holds(component: Component)

  /** What a pass over the grid does to each component it meets. */
  datatype Visit =
    | Finalize(colWidths: seq<int>, rowHeights: seq<int>)
    | Tick(dt: real)
    | Render

  /** The call a pass makes on the component in cell (`row`, `col`); finalising hands it the
      width of its column and the height of its row. */
  function CallFor(visit: Visit, row: nat, col: nat, c: Component): (call: ComponentCall)
    requires visit.Finalize? ==> col < |visit.colWidths| && row < |visit.rowHeights|
    ensures call.target == c
    ensures visit.Finalize? ==> call == FinalizeCall(c, visit.colWidths[col], visit.rowHeights[row])
    ensures visit.Tick? ==> call == TickCall(c, visit.dt)
    ensures visit.Render? ==> call == DrawCall(c)
  {
    match visit
    case Finalize(colWidths, rowHeights) => FinalizeCall(c, colWidths[col], rowHeights[row])
    case Tick(dt) => TickCall(c, dt)
    case Render => DrawCall(c)
  }

  predicate Fits(visit: Visit, rows: nat, cols: nat)
  {
    visit.Finalize? ==> cols <= |visit.colWidths| && rows <= |visit.rowHeights|
  }

  /** The calls a pass makes on the first `cols` cells of row `row`, left to right, skipping
      empty cells. */
  function CellCalls(a: array2<Cell>, row: nat, cols: nat, visit: Visit): seq<ComponentCall>
    requires row < a.Length0 && cols <= a.Length1 && Fits(visit, row + 1, cols)
    reads a
  {
    if cols == 0 then []
    else
      CellCalls(a, row, cols - 1, visit) +
      match a[row, cols - 1]
      case Empty => []
      case Holds(c) => [CallFor(visit, row, cols - 1, c)]
  }

  /** The calls a pass makes on the first `rows` rows, each row's first `cols` cells, in
      row-major order. */
  function GridCalls(a: array2<Cell>, rows: nat, cols: nat, visit: Visit): seq<ComponentCall>
    requires rows <= a.Length0 && cols <= a.Length1 && Fits(visit, rows, cols)
    reads a
  {
    if rows == 0 then [] else GridCalls(a, rows - 1, cols, visit) + CellCalls(a, rows - 1, cols, visit)
  }

  /** A pass reaches every component in its range. */
  lemma {:induction false} CellCallsReachEveryComponent(a: array2<Cell>, row: nat, cols: nat, visit: Visit, col: nat)
    requires row < a.Length0 && cols <= a.Length1 && Fits(visit, row + 1, cols)
    requires col < cols && a[row, col].Holds?
    ensures CallFor(visit, row, col, a[row, col].component) in CellCalls(a, row, cols, visit)
  {
    if col < cols - 1 {
      CellCallsReachEveryComponent(a, row, cols - 1, visit, col);
    }
  }

  lemma {:induction false} GridCallsReachEveryComponent(a: array2<Cell>, rows: nat, cols: nat, visit: Visit, row: nat, col: nat)
    requires rows <= a.Length0 && cols <= a.Length1 && Fits(visit, rows, cols)
    requires row < rows && col < cols && a[row, col].Holds?
    ensures CallFor(visit, row, col, a[row, col].component) in GridCalls(a, rows, cols, visit)
  {
    var call := CallFor(visit, row, col, a[row, col].component);
    assert GridCalls(a, rows, cols, visit) == GridCalls(a, rows - 1, cols, visit) + CellCalls(a, rows - 1, cols, visit);
    if row < rows - 1 {
      GridCallsReachEveryComponent(a, rows - 1, cols, visit, row, col);
      assert call in GridCalls(a, rows - 1, cols, visit);
    } else {
      CellCallsReachEveryComponent(a, row, cols, visit, col);
      assert call in CellCalls(a, rows - 1, cols, visit);
    }
  }

  /** A pass makes exactly one call per component: as many calls as non-empty cells. */
  function HeldInRow(a: array2<Cell>, row: nat, cols: nat): nat
    requires row < a.Length0 && cols <= a.Length1
    reads a
  {
    if cols == 0 then 0 else HeldInRow(a, row, cols - 1) + (if a[row, cols - 1].Holds? then 1 else 0)
  }

  lemma {:induction false} OneCallPerComponentInRow(a: array2<Cell>, row: nat, cols: nat, visit: Visit)
    requires row < a.Length0 && cols <= a.Length1 && Fits(visit, row + 1, cols)
    ensures |CellCalls(a, row, cols, visit)| == HeldInRow(a, row, cols)
  {
    if cols > 0 {
      OneCallPerComponentInRow(a, row, cols - 1, visit);
    }
  }

  /** The widest component in the first `rows` cells of column `col`, or `start` if wider. */
  function ColumnMax(a: array2<Cell>, col: nat, rows: nat, start: int): int
    requires col < a.Length1 && rows <= a.Length0
    reads a
  {
    if rows == 0 then start
    else
      var m := ColumnMax(a, col, rows - 1, start);
      match a[rows - 1, col]
      case Empty => m
      case Holds(c) => Max(m, c.width)
  }

  /** The tallest component in the first `cols` cells of row `row`, or `start` if taller. */
  function RowMax(a: array2<Cell>, row: nat, cols: nat, start: int): int
    requires row < a.Length0 && cols <= a.Length1
    reads a
  {
    if cols == 0 then start
    else
      var m := RowMax(a, row, cols - 1, start);
      match a[row, cols - 1]
      case Empty => m
      case Holds(c) => Max(m, c.height)
  }

  /** A column is at least as wide as every component in it and as the width it started
      with, and its width is one of those. */
  lemma {:induction false} ColumnMaxBounds(a: array2<Cell>, col: nat, rows: nat, start: int)
    requires col < a.Length1 && rows <= a.Length0
    ensures start <= ColumnMax(a, col, rows, start)
    ensures forall r :: 0 <= r < rows && a[r, col].Holds? ==> a[r, col].component.width <= ColumnMax(a, col, rows, start)
    ensures ColumnMax(a, col, rows, start) == start ||
            exists r :: 0 <= r < rows && a[r, col].Holds? && a[r, col].component.width == ColumnMax(a, col, rows, start)
  {
    if rows > 0 {
      ColumnMaxBounds(a, col, rows - 1, start);
    }
  }

  /** A row is at least as tall as every component in it and as the height it started with,
      and its height is one of those. */
  lemma {:induction false} RowMaxBounds(a: array2<Cell>, row: nat, cols: nat, start: int)
    requires row < a.Length0 && cols <= a.Length1
    ensures start <= RowMax(a, row, cols, start)
    ensures forall c :: 0 <= c < cols && a[row, c].Holds? ==> a[row, c].component.height <= RowMax(a, row, cols, start)
    ensures RowMax(a, row, cols, start) == start ||
            exists c :: 0 <= c < cols && a[row, c].Holds? && a[row, c].component.height == RowMax(a, row, cols, start)
  {
    if cols > 0 {
      RowMaxBounds(a, row, cols - 1, start);
    }
  }

  /** Measuring a column a second time changes nothing. */
  lemma {:induction false} ColumnMaxIdempotent(a: array2<Cell>, col: nat, rows: nat, start: int)
    requires col < a.Length1 && rows <= a.Length0
    ensures ColumnMax(a, col, rows, ColumnMax(a, col, rows, start)) == ColumnMax(a, col, rows, start)
  {
    var m := ColumnMax(a, col, rows, start);
    ColumnMaxBounds(a, col, rows, start);
    ColumnMaxAbsorbs(a, col, rows, m);
  }

  /** Starting from a width no component in the column exceeds leaves that width. */
  lemma {:induction false} ColumnMaxAbsorbs(a: array2<Cell>, col: nat, rows: nat, start: int)
    requires col < a.Length1 && rows <= a.Length0
    requires forall r :: 0 <= r < rows && a[r, col].Holds? ==> a[r, col].component.width <= start
    ensures ColumnMax(a, col, rows, start) == start
  {
    if rows > 0 {
      ColumnMaxAbsorbs(a, col, rows - 1, start);
    }
  }

  /** Measuring a row a second time changes nothing. */
  lemma {:induction false} RowMaxIdempotent(a: array2<Cell>, row: nat, cols: nat, start: int)
    requires row < a.Length0 && cols <= a.Length1
    ensures RowMax(a, row, cols, RowMax(a, row, cols, start)) == RowMax(a, row, cols, start)
  {
    var m := RowMax(a, row, cols, start);
    RowMaxBounds(a, row, cols, start);
    RowMaxAbsorbs(a, row, cols, m);
  }

  /** Starting from a height no component in the row exceeds leaves that height. */
  lemma {:induction false} RowMaxAbsorbs(a: array2<Cell>, row: nat, cols: nat, start: int)
    requires row < a.Length0 && cols <= a.Length1
    requires forall c :: 0 <= c < cols && a[row, c].Holds? ==> a[row, c].component.height <= start
    ensures RowMax(a, row, cols, start) == start
  {
    if cols > 0 {
      RowMaxAbsorbs(a, row, cols - 1, start);
    }
  }

  /** How far from the grid's edge the cell with index `i` starts along one axis, given the
      sizes of the columns (or rows). */
  function Offset(sizes: seq<int>, i: nat, spacing: int, margin: int): int
    requires i <= |sizes|
  {
    margin + Sum(sizes[..i]) + i * spacing
  }

  /** The grid's extent along one axis: all sizes, one spacing between neighbours and a
      margin at each end. */
  function Extent(sizes: seq<int>, count: int, spacing: int, margin: int): int
  {
    Sum(sizes) + spacing * (count - 1) + 2 * margin
  }

  lemma OffsetStep(sizes: seq<int>, i: nat, spacing: int, margin: int)
    requires i < |sizes|
    ensures Offset(sizes, i + 1, spacing, margin) == Offset(sizes, i, spacing, margin) + sizes[i] + spacing
  {
    SumPrefixStep(sizes, i);
  }

  /** The last column (or row) ends one margin short of the grid's extent. */
  lemma LastCellEndsAtMargin(sizes: seq<int>, spacing: int, margin: int)
    requires sizes != []
    ensures Offset(sizes, |sizes| - 1, spacing, margin) + sizes[|sizes| - 1] + margin == Extent(sizes, |sizes|, spacing, margin)
  {
    OffsetStep(sizes, |sizes| - 1, spacing, margin);
    assert sizes[..|sizes|] == sizes;
  }

  /** With non-negative spacing, a component no wider than its column ends before the next
      column starts. */
  lemma CellsDoNotOverlap(sizes: seq<int>, i: nat, extent: int, spacing: int, margin: int)
    requires i + 1 < |sizes| && extent <= sizes[i] && spacing >= 0
    ensures Offset(sizes, i, spacing, margin) + extent <= Offset(sizes, i + 1, spacing, margin)
  {
    OffsetStep(sizes, i, spacing, margin);
  }

  /** The calls positioning the first `cols` cells of row `row`. */
  function RowPlacements(a: array2<Cell>, row: nat, cols: nat, p: Vec2, colWidths: seq<int>, rowHeights: seq<int>, spacing: int, margin: int): seq<ComponentCall>
    requires row < a.Length0 && cols <= a.Length1 && cols <= |colWidths| && row <= |rowHeights|
    reads a
  {
    if cols == 0 then []
    else
      RowPlacements(a, row, cols - 1, p, colWidths, rowHeights, spacing, margin) +
      match a[row, cols - 1]
      case Empty => []
      case Holds(c) => [PlaceCall(c, p.Plus(OfInts(Offset(colWidths, cols - 1, spacing, margin), Offset(rowHeights, row, spacing, margin))))]
  }

  /** The calls positioning the first `rows` rows, in row-major order. */
  function Placements(a: array2<Cell>, rows: nat, p: Vec2, colWidths: seq<int>, rowHeights: seq<int>, spacing: int, margin: int): seq<ComponentCall>
    requires rows <= a.Length0 && a.Length1 <= |colWidths| && rows <= |rowHeights|
    reads a
  {
    if rows == 0 then []
    else
      Placements(a, rows - 1, p, colWidths, rowHeights, spacing, margin) +
      RowPlacements(a, rows - 1, a.Length1, p, colWidths, rowHeights, spacing, margin)
  }

  class Grid {
    const spacing: int
    const margin: int
    const components: array2<Cell>
    const maxColWidths: array<int>
    const maxRowHeights: array<int>
    var width: int
    var height: int
    /** Every call made on the components so far. */
    var log: seq<ComponentCall>

    /** The arrays agree with the grid's dimensions and are distinct. */
    predicate Valid()
    {
      maxColWidths.Length == components.Length1 && maxRowHeights.Length == components.Length0 &&
      maxColWidths != maxRowHeights
    }

    /** The number of columns finalising visits: none when the grid has no rows. */
    function NumCols(): nat
    {
      if components.Length0 > 0 then components.Length1 else 0
    }

    constructor (numRows: nat, numCols: nat, spacing: int, margin: int)
      ensures Valid() && fresh(components) && fresh(maxColWidths) && fresh(maxRowHeights)
      ensures components.Length0 == numRows && components.Length1 == numCols
      ensures forall r, c :: 0 <= r < numRows && 0 <= c < numCols ==> components[r, c] == Empty
      ensures forall k :: 0 <= k < numCols ==> maxColWidths[k] == 0
      ensures forall k :: 0 <= k < numRows ==> maxRowHeights[k] == 0
      ensures this.spacing == spacing && this.margin == margin
      ensures width == 0 && height == 0 && log == []
    {
      components := new Cell[numRows, numCols]((r, c) => Empty);
      maxColWidths := new int[numCols](_ => 0);
      maxRowHeights := new int[numRows](_ => 0);
      this.spacing := spacing;
      this.margin := margin;
      width := 0;
      height := 0;
      log := [];
    }

    /** Puts a component in a cell, replacing whatever was there; a cell outside the grid
        throws and changes nothing. */
    method AddComponent(c: Component, row: int, col: int) returns (outcome: Outcome)
      modifies components
      ensures outcome == Done <==> 0 <= row < components.Length0 && 0 <= col < components.Length1
      ensures outcome != Done ==> outcome == Throws(IndexOutOfRange)
      ensures outcome == Done ==> components[row, col] == Holds(c)
      ensures forall r, k :: 0 <= r < components.Length0 && 0 <= k < components.Length1 && (r != row || k != col) ==>
                components[r, k] == old(components[r, k])
    {
      if 0 <= row < components.Length0 && 0 <= col < components.Length1 {
        components[row, col] := Holds(c);
        outcome := Done;
      } else {
        outcome := Throws(IndexOutOfRange);
      }
    }

    /** Widens every column to its widest component and every row to its tallest (never
        narrowing what an earlier call measured), sizes the grid from them and finalises
        every component with its column's width and its row's height. */
    method FinalizeGrid()
      requires Valid()
      modifies maxColWidths, maxRowHeights, this`width, this`height, this`log
      ensures forall k :: 0 <= k < maxColWidths.Length ==>
                maxColWidths[k] == ColumnMax(components, k, components.Length0, old(maxColWidths[k]))
      ensures forall k :: 0 <= k < maxRowHeights.Length ==>
                maxRowHeights[k] == RowMax(components, k, components.Length1, old(maxRowHeights[k]))
      ensures width == Extent(maxColWidths[..], NumCols(), spacing, margin)
      ensures height == Extent(maxRowHeights[..], components.Length0, spacing, margin)
      ensures log == old(log) + GridCalls(components, components.Length0, NumCols(),
                                          Finalize(maxColWidths[..], maxRowHeights[..]))
    {
      var numRows := components.Length0;
      var numCols := if numRows > 0 then components.Length1 else 0;
      MeasureCells(numRows, numCols);
      width := Sum(maxColWidths[..]) + spacing * (numCols - 1) + 2 * margin;
      height := Sum(maxRowHeights[..]) + spacing * (numRows - 1) + 2 * margin;
      VisitCells(numRows, numCols, Finalize(maxColWidths[..], maxRowHeights[..]));
    }

    /** The measuring half of FinalizeGrid: one pass over the cells, widening columns and
        rows. */
    method MeasureCells(numRows: nat, numCols: nat)
      requires Valid() && numRows == components.Length0
      requires numCols == if numRows > 0 then components.Length1 else 0
      modifies maxColWidths, maxRowHeights
      ensures forall k :: 0 <= k < maxColWidths.Length ==>
                maxColWidths[k] == ColumnMax(components, k, numRows, old(maxColWidths[k]))
      ensures forall k :: 0 <= k < maxRowHeights.Length ==>
                maxRowHeights[k] == RowMax(components, k, components.Length1, old(maxRowHeights[k]))
    {
      ghost var colsBefore := maxColWidths[..];
      ghost var rowsBefore := maxRowHeights[..];
      var r := 0;
      while r < numRows
        invariant 0 <= r <= numRows
        invariant forall k :: 0 <= k < maxColWidths.Length ==>
                    maxColWidths[k] == ColumnMax(components, k, r, colsBefore[k])
        invariant forall j :: 0 <= j < r ==> maxRowHeights[j] == RowMax(components, j, components.Length1, rowsBefore[j])
        invariant forall j :: r <= j < maxRowHeights.Length ==> maxRowHeights[j] == rowsBefore[j]
      {
        MeasureRow(r, numCols, colsBefore, rowsBefore);
        r := r + 1;
      }
    }

    /** Measures row `r`: every column is widened by its cell in this row and the row by its
        tallest component; no other row changes. */
    method MeasureRow(r: nat, numCols: nat, ghost colsBefore: seq<int>, ghost rowsBefore: seq<int>)
      requires Valid() && r < components.Length0 && numCols == components.Length1
      requires |rowsBefore| == maxRowHeights.Length && maxRowHeights[r] == rowsBefore[r]
      requires |colsBefore| == maxColWidths.Length
      requires forall k :: 0 <= k < maxColWidths.Length ==> maxColWidths[k] == ColumnMax(components, k, r, colsBefore[k])
      modifies maxColWidths, maxRowHeights
      ensures forall k :: 0 <= k < maxColWidths.Length ==> maxColWidths[k] == ColumnMax(components, k, r + 1, colsBefore[k])
      ensures maxRowHeights[r] == RowMax(components, r, components.Length1, rowsBefore[r])
      ensures forall j :: 0 <= j < maxRowHeights.Length && j != r ==> maxRowHeights[j] == old(maxRowHeights[j])
    {
      var c := 0;
      while c < numCols
        invariant 0 <= c <= numCols
        invariant forall k :: 0 <= k < c ==> maxColWidths[k] == ColumnMax(components, k, r + 1, colsBefore[k])
        invariant forall k :: c <= k < maxColWidths.Length ==> maxColWidths[k] == ColumnMax(components, k, r, colsBefore[k])
        invariant maxRowHeights[r] == RowMax(components, r, c, rowsBefore[r])
        invariant forall j :: 0 <= j < maxRowHeights.Length && j != r ==> maxRowHeights[j] == old(maxRowHeights[j])
      {
        match components[r, c] {
          case Empty =>
          case Holds(comp) =>
            maxColWidths[c] := Max(maxColWidths[c], comp.width);
            maxRowHeights[r] := Max(maxRowHeights[r], comp.height);
        }
        c := c + 1;
      }
    }

    /** One pass over the first `numRows` rows and `numCols` columns, calling each component
        in row-major order. */
    method VisitCells(numRows: nat, numCols: nat, visit: Visit)
      requires numRows <= components.Length0 && numCols <= components.Length1 && Fits(visit, numRows, numCols)
      modifies this`log
      ensures log == old(log) + GridCalls(components, numRows, numCols, visit)
    {
      var r := 0;
      while r < numRows
        invariant 0 <= r <= numRows
        invariant log == old(log) + GridCalls(components, r, numCols, visit)
      {
        ghost var done := GridCalls(components, r, numCols, visit);
        VisitRow(r, numCols, visit);
        AppendAssoc(old(log), done, CellCalls(components, r, numCols, visit));
        r := r + 1;
      }
    }

    /** The pass over the first `numCols` cells of one row. */
    method VisitRow(r: nat, numCols: nat, visit: Visit)
      requires r < components.Length0 && numCols <= components.Length1 && Fits(visit, r + 1, numCols)
      modifies this`log
      ensures log == old(log) + CellCalls(components, r, numCols, visit)
    {
      var c := 0;
      while c < numCols
        invariant 0 <= c <= numCols
        invariant log == old(log) + CellCalls(components, r, c, visit)
      {
        match components[r, c] {
          case Empty =>
          case Holds(comp) =>
            AppendAssoc(old(log), CellCalls(components, r, c, visit), [CallFor(visit, r, c, comp)]);
            log := log + [CallFor(visit, r, c, comp)];
        }
        c := c + 1;
      }
    }

    /** Forwards a frame tick to every component. */
    method FrameTick(dt: real)
      modifies this`log
      ensures log == old(log) + GridCalls(components, components.Length0, components.Length1, Tick(dt))
    {
      VisitCells(components.Length0, components.Length1, Tick(dt));
    }

    /** Draws every component. */
    method Draw()
      modifies this`log
      ensures log == old(log) + GridCalls(components, components.Length0, components.Length1, Render)
    {
      VisitCells(components.Length0, components.Length1, Render);
    }

    /** Places every component at its cell's offset from `p`: one margin in from the edge,
        then one column width (row height) and one spacing per cell before it. */
    method UpdatePosition(p: Vec2)
      requires Valid()
      modifies this`log
      ensures log == old(log) + Placements(components, components.Length0, p, maxColWidths[..], maxRowHeights[..], spacing, margin)
    {
      ghost var colWidths := maxColWidths[..];
      ghost var rowHeights := maxRowHeights[..];
      var heightOffset := margin;
      var r := 0;
      while r < components.Length0
        invariant 0 <= r <= components.Length0
        invariant heightOffset == Offset(rowHeights, r, spacing, margin)
        invariant log == old(log) + Placements(components, r, p, colWidths, rowHeights, spacing, margin)
      {
        var widthOffset := margin;
        var c := 0;
        while c < components.Length1
          invariant 0 <= c <= components.Length1
          invariant widthOffset == Offset(colWidths, c, spacing, margin)
          invariant log == old(log) + Placements(components, r, p, colWidths, rowHeights, spacing, margin) +
                           RowPlacements(components, r, c, p, colWidths, rowHeights, spacing, margin)
        {
          match components[r, c] {
            case Empty =>
            case Holds(comp) =>
              AppendAssoc(old(log) + Placements(components, r, p, colWidths, rowHeights, spacing, margin),
                          RowPlacements(components, r, c, p, colWidths, rowHeights, spacing, margin),
                          [PlaceCall(comp, p.Plus(OfInts(widthOffset, heightOffset)))]);
              log := log + [PlaceCall(comp, p.Plus(OfInts(widthOffset, heightOffset)))];
          }
          OffsetStep(colWidths, c, spacing, margin);
          widthOffset := widthOffset + maxColWidths[c];
          widthOffset := widthOffset + spacing;
          c := c + 1;
        }
        AppendAssoc(old(log), Placements(components, r, p, colWidths, rowHeights, spacing, margin),
                    RowPlacements(components, r, components.Length1, p, colWidths, rowHeights, spacing, margin));
        OffsetStep(rowHeights, r, spacing, margin);
        heightOffset := heightOffset + maxRowHeights[r];
        heightOffset := heightOffset + spacing;
        r := r + 1;
      }
    }
  }

  /** Finalising a grid whose column and row sizes start at zero leaves every component no
      wider than its column and no taller than its row. */
  lemma ComponentsFitTheirCells(a: array2<Cell>, row: nat, col: nat)
    requires row < a.Length0 && col < a.Length1 && a[row, col].Holds?
    ensures a[row, col].component.width <= ColumnMax(a, col, a.Length0, 0)
    ensures a[row, col].component.height <= RowMax(a, row, a.Length1, 0)
  {
    ColumnMaxBounds(a, col, a.Length0, 0);
    RowMaxBounds(a, row, a.Length1, 0);
  }
}

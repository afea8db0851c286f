/** Where BIBs sit on a sheet and where its crop marks run, in exact
    millimetres (internal/generator/layout.go). */
module SheetLayout {
  import opened Wrappers

  const SHEET_MARGIN := 10.0
  const CROP_MARK := 5.0

  datatype Size = Size(w: real, h: real)

  datatype Layout = Layout(
    paper: string,
    orientation: string,
    cols: int,
    rows: int,
    cropMarks: bool,
    gutter: real,
    bleed: real,
    marginMM: Option<real>)
  {
    function Margin(): real {
      if marginMM.Some? then marginMM.value else SHEET_MARGIN
    }
  }

  /** A trim box on a sheet. */
  datatype Cell = Cell(x: real, y: real, w: real, h: real)

  datatype MarkLine = MarkLine(x1: real, y1: real, x2: real, y2: real)

  datatype LayoutError = UnknownPaper | UnknownOrientation | EmptyGrid | OutOfRange | DoesNotFit

  function PaperSize(paper: string): Option<Size> {
    if paper == "a4" then Some(Size(210.0, 297.0))
    else if paper == "a3" then Some(Size(297.0, 420.0))
    else if paper == "a3plus" then Some(Size(329.0, 483.0))
    else if paper == "sra3" then Some(Size(320.0, 450.0))
    else None
  }

  function SheetSize(paper: string, orientation: string): Result<Size, LayoutError> {
    match PaperSize(paper)
    case None => Err(UnknownPaper)
    case Some(size) =>
      if orientation == "portrait" then Ok(size)
      else if orientation == "landscape" then Ok(Size(size.h, size.w))
      else Err(UnknownOrientation)
  }

  /** The papers that are known stand in portrait and lie, the same paper, in landscape;
      no other paper and no other orientation is known. */
  lemma {:induction false} SheetSizeIsExact(paper: string, orientation: string)
    ensures SheetSize(paper, orientation).Ok? <==>
              paper in ["a4", "a3", "a3plus", "sra3"] && orientation in ["portrait", "landscape"]
    ensures SheetSize("a4", "portrait") == Ok(Size(210.0, 297.0)) && SheetSize("a3", "portrait") == Ok(Size(297.0, 420.0))
    ensures SheetSize("a3plus", "portrait") == Ok(Size(329.0, 483.0)) && SheetSize("sra3", "portrait") == Ok(Size(320.0, 450.0))
    ensures SheetSize(paper, "portrait").Ok? ==>
              var stands, lies := SheetSize(paper, "portrait").value, SheetSize(paper, "landscape");
              stands.w < stands.h && lies == Ok(Size(stands.h, stands.w))
  {
    assert ["a4", "a3", "a3plus", "sra3"][0] == "a4" && ["a4", "a3", "a3plus", "sra3"][1] == "a3";
    assert ["a4", "a3", "a3plus", "sra3"][2] == "a3plus" && ["a4", "a3", "a3plus", "sra3"][3] == "sra3";
    assert ["portrait", "landscape"][0] == "portrait" && ["portrait", "landscape"][1] == "landscape";
  }

  /** A layout that states no margin has ten millimetres. */
  lemma MarginIsExact(l: Layout)
    ensures l.Margin() == match l.marginMM { case Some(m) => m case None => 10.0 }
  {
  }

  // ---- how many fit

  function Times(n: int, p: real): real {
    n as real * p
  }

  /** The distance from one BIB to the next. */
  function Pitch(size: real, l: Layout): real {
    size + 2.0 * l.bleed + l.gutter
  }

  /** The room n BIBs take with their bleed, gutters only in between. */
  function Span(n: int, size: real, l: Layout): real {
    Times(n, Pitch(size, l)) - l.gutter
  }

  function Fit(available: real, size: real, l: Layout): (n: nat)
    requires Pitch(size, l) > 0.0
  {
    var n := ((available + l.gutter) / Pitch(size, l)).Floor;
    if n < 0 then 0 else n
  }

  lemma {:induction false} DivisionBounds(a: real, p: real, n: int)
    requires p > 0.0
    ensures n as real <= a / p <==> n as real * p <= a
  {
    var q := a / p;
    assert q * p == a;
    if n as real <= q {
      assert n as real * p <= q * p;
    } else {
      assert n as real * p > q * p;
    }
  }

  /** The fit is maximal: n BIBs, n at least one, fit if and only if n is no
      more than it. */
  lemma {:induction false} FitIsMaximal(available: real, size: real, l: Layout, n: int)
    requires Pitch(size, l) > 0.0 && n >= 1
    ensures Span(n, size, l) <= available <==> n <= Fit(available, size, l)
  {
    DivisionBounds(available + l.gutter, Pitch(size, l), n);
  }

  /** Columns and rows that fit inside the sheet margins. */
  function MaxGrid(cell: Size, l: Layout): Result<(nat, nat), LayoutError>
    requires Pitch(cell.w, l) > 0.0 && Pitch(cell.h, l) > 0.0
  {
    match SheetSize(l.paper, l.orientation)
    case Err(e) => Err(e)
    case Ok(sheet) =>
      Ok((Fit(sheet.w - 2.0 * l.Margin(), cell.w, l), Fit(sheet.h - 2.0 * l.Margin(), cell.h, l)))
  }

  /** Templates have a positive size. */
  predicate Printable(cell: Size) {
    cell.w > 0.0 && cell.h > 0.0
  }

  predicate InRange(l: Layout) {
    && 0.0 <= l.gutter <= 50.0 && 0.0 <= l.bleed <= 20.0
    && 0.0 <= l.Margin() <= 50.0
  }

  /** What is wrong with the layout, if anything. */
  function Validate(cell: Size, l: Layout): Option<LayoutError>
    requires Printable(cell)
  {
    if l.cols < 1 || l.rows < 1 then Some(EmptyGrid)
    else if l.gutter < 0.0 || l.bleed < 0.0 || l.gutter > 50.0 || l.bleed > 20.0 then Some(OutOfRange)
    else if l.Margin() < 0.0 || l.Margin() > 50.0 then Some(OutOfRange)
    else
      match MaxGrid(cell, l)
      case Err(e) => Some(e)
      case Ok((cols, rows)) => if l.cols > cols || l.rows > rows then Some(DoesNotFit) else None
  }

  /** The grid with its bleed lies within the margins of a known sheet. */
  predicate GridFits(cell: Size, l: Layout) {
    && SheetSize(l.paper, l.orientation).Ok?
    && var sheet := SheetSize(l.paper, l.orientation).value;
       && Span(l.cols, cell.w, l) <= sheet.w - 2.0 * l.Margin()
       && Span(l.rows, cell.h, l) <= sheet.h - 2.0 * l.Margin()
  }

  /** A layout is accepted exactly when its numbers are in range and its grid
      fits its paper. */
  lemma {:induction false} ValidateIsExact(cell: Size, l: Layout)
    requires Printable(cell)
    ensures Validate(cell, l).None? <==> l.cols >= 1 && l.rows >= 1 && InRange(l) && GridFits(cell, l)
  {
    if l.cols >= 1 && l.rows >= 1 && InRange(l) && SheetSize(l.paper, l.orientation).Ok? {
      var sheet := SheetSize(l.paper, l.orientation).value;
      FitIsMaximal(sheet.w - 2.0 * l.Margin(), cell.w, l, l.cols);
      FitIsMaximal(sheet.h - 2.0 * l.Margin(), cell.h, l, l.rows);
    }
  }

  // ---- the cells

  /** The grid's outer corner, bleed included. */
  function GridLeft(cell: Size, l: Layout, sheet: Size): real {
    (sheet.w - Span(l.cols, cell.w, l)) / 2.0
  }

  function GridTop(cell: Size, l: Layout, sheet: Size): real {
    (sheet.h - Span(l.rows, cell.h, l)) / 2.0
  }

  function CellAt(cell: Size, l: Layout, sheet: Size, row: int, col: int): Cell {
    Cell(GridLeft(cell, l, sheet) + l.bleed + Times(col, Pitch(cell.w, l)),
         GridTop(cell, l, sheet) + l.bleed + Times(row, Pitch(cell.h, l)), cell.w, cell.h)
  }

  /** One row of cells, and the first n rows of them. */
  function RowCells(cell: Size, l: Layout, sheet: Size, row: int): (cells: seq<Cell>)
    requires l.cols >= 0
    ensures |cells| == l.cols
  {
    seq(l.cols, col => CellAt(cell, l, sheet, row, col))
  }

  function GridCells(cell: Size, l: Layout, sheet: Size, n: nat): seq<Cell>
    requires l.cols >= 0
  {
    if n == 0 then [] else GridCells(cell, l, sheet, n - 1) + RowCells(cell, l, sheet, n - 1)
  }

  lemma {:induction false} GridHasAllCells(cell: Size, l: Layout, sheet: Size, n: nat)
    requires l.cols >= 0
    ensures |GridCells(cell, l, sheet, n)| == n * l.cols
  {
    if n > 0 {
      GridHasAllCells(cell, l, sheet, n - 1);
      assert n * l.cols == (n - 1) * l.cols + l.cols;
    }
  }

  /** Row by row, column by column. */
  lemma {:induction false} CellsAreInOrder(cell: Size, l: Layout, sheet: Size, n: nat, row: nat, col: nat)
    requires row < n && col < l.cols
    ensures 0 <= row * l.cols + col < |GridCells(cell, l, sheet, n)|
    ensures GridCells(cell, l, sheet, n)[row * l.cols + col] == CellAt(cell, l, sheet, row, col)
  {
    GridHasAllCells(cell, l, sheet, n - 1);
    if row < n - 1 {
      CellsAreInOrder(cell, l, sheet, n - 1, row, col);
    }
  }

  /** Nothing but the grid's cells is placed. */
  lemma {:induction false} CellsAreOfTheGrid(cell: Size, l: Layout, sheet: Size, n: nat, c: Cell)
    requires l.cols >= 0
    ensures c in GridCells(cell, l, sheet, n) <==>
            exists row, col :: 0 <= row < n && 0 <= col < l.cols && c == CellAt(cell, l, sheet, row, col)
  {
    if n > 0 {
      CellsAreOfTheGrid(cell, l, sheet, n - 1, c);
      var last := RowCells(cell, l, sheet, n - 1);
      if c in last {
        var col :| 0 <= col < |last| && last[col] == c;
        assert c == CellAt(cell, l, sheet, n - 1, col);
      }
      if row, col :| 0 <= row < n && 0 <= col < l.cols && c == CellAt(cell, l, sheet, row, col) {
        if row == n - 1 {
          assert last[col] == c;
        }
      }
    }
  }

  /** Places every trim box of a sheet, the whole grid centred, row by row. */
  method PlaceCells(cell: Size, l: Layout) returns (r: Result<seq<Cell>, LayoutError>)
    requires l.cols >= 0 && l.rows >= 0
    ensures var found := SheetSize(l.paper, l.orientation);
            r == if found.Err? then Err(found.error) else Ok(GridCells(cell, l, found.value, l.rows))
  {
    var found := SheetSize(l.paper, l.orientation);
    if found.Err? {
      return Err(found.error);
    }
    var sheet := found.value;
    var pitchX, pitchY := Pitch(cell.w, l), Pitch(cell.h, l);
    var gridW, gridH := Span(l.cols, cell.w, l), Span(l.rows, cell.h, l);
    var left, top := (sheet.w - gridW) / 2.0 + l.bleed, (sheet.h - gridH) / 2.0 + l.bleed;
    var cells := [];
    for row := 0 to l.rows
      invariant cells == GridCells(cell, l, sheet, row)
    {
      ghost var line := RowCells(cell, l, sheet, row);
      for col := 0 to l.cols
        invariant cells == GridCells(cell, l, sheet, row) + line[..col]
      {
        var c := Cell(left + Times(col, pitchX), top + Times(row, pitchY), cell.w, cell.h);
        assert c == CellAt(cell, l, sheet, row, col) == line[col];
        assert line[..col + 1] == line[..col] + [line[col]];
        cells := cells + [c];
      }
      assert line[..l.cols] == line;
    }
    r := Ok(cells);
  }

  // ---- where the cells are

  lemma Scale(i: int, j: int, p: real)
    requires i <= j && p >= 0.0
    ensures Times(i, p) <= Times(j, p)
  {
  }

  lemma OneMore(i: int, p: real)
    ensures Times(i + 1, p) == Times(i, p) + p
  {
  }

  /** The i-th step ends by the time the j-th begins. */
  lemma {:induction false} StepBefore(i: int, j: int, p: real)
    requires i < j && p >= 0.0
    ensures Times(i, p) + p <= Times(j, p)
  {
    OneMore(i, p);
    Scale(i + 1, j, p);
  }

  /** On one axis: a step that begins at `at` and ends within `all`, with its
      bleed, lies within the centred span. */
  lemma StepInSpan(at: real, all: real, p: real, size: real, bleed: real, gutter: real, sheet: real)
    requires 0.0 <= at && at + p <= all && p == size + 2.0 * bleed + gutter
    ensures var left := (sheet - (all - gutter)) / 2.0;
            var x := left + bleed + at;
            left <= x - bleed && x + size + bleed <= sheet - left
  {
  }

  lemma {:induction false} ColumnInGrid(cell: Size, l: Layout, sheet: Size, row: int, col: int)
    requires Printable(cell) && InRange(l) && 0 <= col < l.cols
    ensures var c := CellAt(cell, l, sheet, row, col);
            GridLeft(cell, l, sheet) <= c.x - l.bleed && c.x + c.w + l.bleed <= sheet.w - GridLeft(cell, l, sheet)
  {
    var p := Pitch(cell.w, l);
    Scale(0, col, p);
    StepBefore(col, l.cols, p);
    StepInSpan(Times(col, p), Times(l.cols, p), p, cell.w, l.bleed, l.gutter, sheet.w);
  }

  lemma {:induction false} RowInGrid(cell: Size, l: Layout, sheet: Size, row: int, col: int)
    requires Printable(cell) && InRange(l) && 0 <= row < l.rows
    ensures var c := CellAt(cell, l, sheet, row, col);
            GridTop(cell, l, sheet) <= c.y - l.bleed && c.y + c.h + l.bleed <= sheet.h - GridTop(cell, l, sheet)
  {
    var p := Pitch(cell.h, l);
    Scale(0, row, p);
    StepBefore(row, l.rows, p);
    StepInSpan(Times(row, p), Times(l.rows, p), p, cell.h, l.bleed, l.gutter, sheet.h);
  }

  /** The grid is centred: its first bleed edge is as far from the sheet's edge as its
      last one, on either axis. */
  lemma {:induction false} GridIsCentred(cell: Size, l: Layout, sheet: Size)
    requires l.rows >= 1 && l.cols >= 1
    ensures var first, last := CellAt(cell, l, sheet, 0, 0), CellAt(cell, l, sheet, l.rows - 1, l.cols - 1);
            && first.x - l.bleed == sheet.w - (last.x + last.w + l.bleed)
            && first.y - l.bleed == sheet.h - (last.y + last.h + l.bleed)
  {
    OneMore(l.cols - 1, Pitch(cell.w, l));
    OneMore(l.rows - 1, Pitch(cell.h, l));
  }

  /** A cell with its bleed lies within the grid. */
  lemma {:induction false} CellInGrid(cell: Size, l: Layout, sheet: Size, row: int, col: int)
    requires Printable(cell) && InRange(l) && 0 <= row < l.rows && 0 <= col < l.cols
    ensures var c := CellAt(cell, l, sheet, row, col);
            && GridLeft(cell, l, sheet) <= c.x - l.bleed
            && c.x + c.w + l.bleed <= sheet.w - GridLeft(cell, l, sheet)
            && GridTop(cell, l, sheet) <= c.y - l.bleed
            && c.y + c.h + l.bleed <= sheet.h - GridTop(cell, l, sheet)
  {
    ColumnInGrid(cell, l, sheet, row, col);
    RowInGrid(cell, l, sheet, row, col);
  }

  /** Every cell of an accepted layout, with its bleed, lies inside the margins. */
  lemma {:induction false} CellsLieInsideMargins(cell: Size, l: Layout, row: int, col: int)
    requires Printable(cell) && Validate(cell, l).None? && 0 <= row < l.rows && 0 <= col < l.cols
    ensures SheetSize(l.paper, l.orientation).Ok?
    ensures var sheet := SheetSize(l.paper, l.orientation).value;
            var c := CellAt(cell, l, sheet, row, col);
            && l.Margin() <= c.x - l.bleed && c.x + c.w + l.bleed <= sheet.w - l.Margin()
            && l.Margin() <= c.y - l.bleed && c.y + c.h + l.bleed <= sheet.h - l.Margin()
  {
    ValidateIsExact(cell, l);
    CellInGrid(cell, l, SheetSize(l.paper, l.orientation).value, row, col);
  }

  /** The free room between two stretches on one axis. */
  predicate Apart(a: real, b: real, size: real, gap: real) {
    a + size + gap <= b || b + size + gap <= a
  }

  lemma {:induction false} StepsApart(i: int, j: int, p: real)
    requires i != j && p >= 0.0
    ensures Times(i, p) + p <= Times(j, p) || Times(j, p) + p <= Times(i, p)
  {
    if i < j {
      StepBefore(i, j, p);
    } else {
      StepBefore(j, i, p);
    }
  }

  lemma ShiftedApart(a: real, b: real, p: real, base: real, size: real, gap: real)
    requires p == size + gap && (a + p <= b || b + p <= a)
    ensures Apart(base + a, base + b, size, gap)
  {
  }

  /** Any two cells are at least two bleeds and a gutter apart on some axis. */
  lemma {:induction false} CellsKeepApart(cell: Size, l: Layout, sheet: Size, r1: int, c1: int, r2: int, c2: int)
    requires Printable(cell) && InRange(l) && (r1 != r2 || c1 != c2)
    ensures var a, b := CellAt(cell, l, sheet, r1, c1), CellAt(cell, l, sheet, r2, c2);
            || Apart(a.x, b.x, cell.w, 2.0 * l.bleed + l.gutter)
            || Apart(a.y, b.y, cell.h, 2.0 * l.bleed + l.gutter)
  {
    var gap := 2.0 * l.bleed + l.gutter;
    if c1 != c2 {
      var p := Pitch(cell.w, l);
      StepsApart(c1, c2, p);
      ShiftedApart(Times(c1, p), Times(c2, p), p, GridLeft(cell, l, sheet) + l.bleed, cell.w, gap);
    } else {
      var p := Pitch(cell.h, l);
      StepsApart(r1, r2, p);
      ShiftedApart(Times(r1, p), Times(r2, p), p, GridTop(cell, l, sheet) + l.bleed, cell.h, gap);
    }
  }

  // ---- crop marks

  function Min(a: real, b: real): real {
    if a < b then a else b
  }

  function Max(a: real, b: real): real {
    if a > b then a else b
  }

  /** The first occurrences, in order. */
  function Distinct(xs: seq<real>): seq<real> {
    if xs == [] then []
    else
      var front, last := Distinct(xs[..|xs| - 1]), xs[|xs| - 1];
      if last in front then front else front + [last]
  }

  lemma {:induction false} DistinctIsExact(xs: seq<real>)
    ensures forall x :: x in Distinct(xs) <==> x in xs
    ensures forall i, j :: 0 <= i < j < |Distinct(xs)| ==> Distinct(xs)[i] != Distinct(xs)[j]
  {
    if xs != [] {
      DistinctIsExact(xs[..|xs| - 1]);
      assert xs == xs[..|xs| - 1] + [xs[|xs| - 1]];
    }
  }

  /** The two cut lines of every cell on one axis. */
  function CutsX(cells: seq<Cell>): seq<real> {
    if cells == [] then [] else CutsX(cells[..|cells| - 1]) + [cells[|cells| - 1].x, cells[|cells| - 1].x + cells[|cells| - 1].w]
  }

  function CutsY(cells: seq<Cell>): seq<real> {
    if cells == [] then [] else CutsY(cells[..|cells| - 1]) + [cells[|cells| - 1].y, cells[|cells| - 1].y + cells[|cells| - 1].h]
  }

  /** The edges of the whole grid of trim boxes. */
  datatype Edges = Edges(left: real, right: real, top: real, bottom: real)

  function EdgesOf(cells: seq<Cell>): Edges
    requires cells != []
  {
    var c := cells[|cells| - 1];
    if |cells| == 1 then Edges(c.x, c.x + c.w, c.y, c.y + c.h)
    else
      var e := EdgesOf(cells[..|cells| - 1]);
      Edges(Min(e.left, c.x), Max(e.right, c.x + c.w), Min(e.top, c.y), Max(e.bottom, c.y + c.h))
  }

  function ColumnMarks(xs: seq<real>, e: Edges, offset: real): seq<MarkLine> {
    if xs == [] then []
    else
      var x := xs[|xs| - 1];
      ColumnMarks(xs[..|xs| - 1], e, offset)
      + [MarkLine(x, e.top - offset - CROP_MARK, x, e.top - offset), MarkLine(x, e.bottom + offset, x, e.bottom + offset + CROP_MARK)]
  }

  function RowMarks(ys: seq<real>, e: Edges, offset: real): seq<MarkLine> {
    if ys == [] then []
    else
      var y := ys[|ys| - 1];
      RowMarks(ys[..|ys| - 1], e, offset)
      + [MarkLine(e.left - offset - CROP_MARK, y, e.left - offset, y), MarkLine(e.right + offset, y, e.right + offset + CROP_MARK, y)]
  }

  function MarksOf(cells: seq<Cell>, bleed: real): seq<MarkLine> {
    if cells == [] then []
    else
      var e := EdgesOf(cells);
      ColumnMarks(Distinct(CutsX(cells)), e, bleed + 1.0) + RowMarks(Distinct(CutsY(cells)), e, bleed + 1.0)
  }

  /** Adds the cuts of one cell that were not seen before. */
  method AddCuts(cuts: seq<real>, seen: set<real>, pair: seq<real>, ghost before: seq<real>) returns (more: seq<real>, now: set<real>)
    requires (forall x :: x in seen <==> x in cuts) && cuts == Distinct(before)
    ensures forall x :: x in now <==> x in more
    ensures more == Distinct(before + pair)
  {
    more, now := cuts, seen;
    assert before + pair[..0] == before;
    for k := 0 to |pair|
      invariant forall x :: x in now <==> x in more
      invariant more == Distinct(before + pair[..k])
    {
      assert before + pair[..k + 1] == before + pair[..k] + [pair[k]];
      assert (before + pair[..k] + [pair[k]])[..|before| + k] == before + pair[..k];
      if pair[k] !in now {
        now := now + {pair[k]};
        more := more + [pair[k]];
      }
    }
    assert pair[..|pair|] == pair;
  }

  ghost predicate Gathered(cells: seq<Cell>, e: Edges, xs: seq<real>, ys: seq<real>) {
    && (cells != [] ==> e == EdgesOf(cells))
    && xs == Distinct(CutsX(cells)) && ys == Distinct(CutsY(cells))
  }

  lemma {:induction false} GatherOne(cells: seq<Cell>, c: Cell, e: Edges, xs: seq<real>, ys: seq<real>, e': Edges, xs': seq<real>, ys': seq<real>)
    requires Gathered(cells, e, xs, ys)
    requires e' == if cells == [] then Edges(c.x, c.x + c.w, c.y, c.y + c.h)
                   else Edges(Min(e.left, c.x), Max(e.right, c.x + c.w), Min(e.top, c.y), Max(e.bottom, c.y + c.h))
    requires xs' == Distinct(CutsX(cells) + [c.x, c.x + c.w]) && ys' == Distinct(CutsY(cells) + [c.y, c.y + c.h])
    ensures Gathered(cells + [c], e', xs', ys')
  {
    assert (cells + [c])[..|cells|] == cells;
  }

  method ColumnLines(xs: seq<real>, e: Edges, offset: real) returns (lines: seq<MarkLine>)
    ensures lines == ColumnMarks(xs, e, offset)
  {
    lines := [];
    for k := 0 to |xs|
      invariant lines == ColumnMarks(xs[..k], e, offset)
    {
      assert xs[..k + 1][..k] == xs[..k];
      lines := lines + [MarkLine(xs[k], e.top - offset - CROP_MARK, xs[k], e.top - offset),
                        MarkLine(xs[k], e.bottom + offset, xs[k], e.bottom + offset + CROP_MARK)];
    }
    assert xs[..|xs|] == xs;
  }

  method RowLines(ys: seq<real>, e: Edges, offset: real) returns (lines: seq<MarkLine>)
    ensures lines == RowMarks(ys, e, offset)
  {
    lines := [];
    for k := 0 to |ys|
      invariant lines == RowMarks(ys[..k], e, offset)
    {
      assert ys[..k + 1][..k] == ys[..k];
      lines := lines + [MarkLine(e.left - offset - CROP_MARK, ys[k], e.left - offset, ys[k]),
                        MarkLine(e.right + offset, ys[k], e.right + offset + CROP_MARK, ys[k])];
    }
    assert ys[..|ys|] == ys;
  }

  /** Walks over the cells once to find the edges and the distinct cuts, then draws two
      marks for each cut, clear of the bleed. */
  method CropMarkLines(cells: seq<Cell>, bleed: real) returns (lines: seq<MarkLine>)
    ensures lines == MarksOf(cells, bleed)
  {
    if cells == [] {
      return [];
    }
    var offset := bleed + 1.0;
    var e := Edges(0.0, 0.0, 0.0, 0.0);
    var xs, ys: seq<real> := [], [];
    var seenX, seenY: set<real> := {}, {};
    for k := 0 to |cells|
      invariant Gathered(cells[..k], e, xs, ys)
      invariant (forall x :: x in seenX <==> x in xs) && (forall y :: y in seenY <==> y in ys)
    {
      var c := cells[k];
      ghost var e0, xs0, ys0 := e, xs, ys;
      // the edges start out infinite, so the first cell sets them
      e := if k == 0 then Edges(c.x, c.x + c.w, c.y, c.y + c.h)
           else Edges(Min(e.left, c.x), Max(e.right, c.x + c.w), Min(e.top, c.y), Max(e.bottom, c.y + c.h));
      xs, seenX := AddCuts(xs, seenX, [c.x, c.x + c.w], CutsX(cells[..k]));
      ys, seenY := AddCuts(ys, seenY, [c.y, c.y + c.h], CutsY(cells[..k]));
      GatherOne(cells[..k], c, e0, xs0, ys0, e, xs, ys);
      assert cells[..k + 1] == cells[..k] + [c];
    }
    assert cells[..|cells|] == cells;
    var columns := ColumnLines(xs, e, offset);
    var rows := RowLines(ys, e, offset);
    lines := columns + rows;
  }

  // ---- where the marks are

  lemma {:induction false} EdgesBound(cells: seq<Cell>, i: nat)
    requires i < |cells|
    ensures var e, c := EdgesOf(cells), cells[i];
            e.left <= c.x && c.x + c.w <= e.right && e.top <= c.y && c.y + c.h <= e.bottom
  {
    if i < |cells| - 1 {
      EdgesBound(cells[..|cells| - 1], i);
    }
  }

  /** Some cell lies on each edge. */
  lemma {:induction false} EdgesAreReached(cells: seq<Cell>)
    requires cells != []
    ensures var e := EdgesOf(cells);
            && (exists i :: 0 <= i < |cells| && cells[i].x == e.left)
            && (exists i :: 0 <= i < |cells| && cells[i].x + cells[i].w == e.right)
            && (exists i :: 0 <= i < |cells| && cells[i].y == e.top)
            && (exists i :: 0 <= i < |cells| && cells[i].y + cells[i].h == e.bottom)
  {
    if |cells| > 1 {
      var front := cells[..|cells| - 1];
      EdgesAreReached(front);
      var e := EdgesOf(front);
      var a :| 0 <= a < |front| && front[a].x == e.left;
      var b :| 0 <= b < |front| && front[b].x + front[b].w == e.right;
      var c :| 0 <= c < |front| && front[c].y == e.top;
      var d :| 0 <= d < |front| && front[d].y + front[d].h == e.bottom;
      assert cells[a].x == e.left && cells[b].x + cells[b].w == e.right;
      assert cells[c].y == e.top && cells[d].y + cells[d].h == e.bottom;
    } else {
      assert cells[0] == cells[|cells| - 1];
    }
  }

  lemma {:induction false} ColumnMarkIs(xs: seq<real>, e: Edges, offset: real, m: MarkLine)
    ensures m in ColumnMarks(xs, e, offset) <==>
            && m.x1 == m.x2 && m.x1 in xs
            && ((m.y1 == e.top - offset - CROP_MARK && m.y2 == e.top - offset)
                || (m.y1 == e.bottom + offset && m.y2 == e.bottom + offset + CROP_MARK))
  {
    if xs != [] {
      ColumnMarkIs(xs[..|xs| - 1], e, offset, m);
      assert xs == xs[..|xs| - 1] + [xs[|xs| - 1]];
    }
  }

  lemma {:induction false} RowMarkIs(ys: seq<real>, e: Edges, offset: real, m: MarkLine)
    ensures m in RowMarks(ys, e, offset) <==>
            && m.y1 == m.y2 && m.y1 in ys
            && ((m.x1 == e.left - offset - CROP_MARK && m.x2 == e.left - offset)
                || (m.x1 == e.right + offset && m.x2 == e.right + offset + CROP_MARK))
  {
    if ys != [] {
      RowMarkIs(ys[..|ys| - 1], e, offset, m);
      assert ys == ys[..|ys| - 1] + [ys[|ys| - 1]];
    }
  }

  lemma {:induction false} CutXIs(cells: seq<Cell>, x: real)
    ensures x in CutsX(cells) <==> exists i :: 0 <= i < |cells| && (x == cells[i].x || x == cells[i].x + cells[i].w)
  {
    if cells != [] {
      CutXIs(cells[..|cells| - 1], x);
    }
  }

  lemma {:induction false} CutYIs(cells: seq<Cell>, y: real)
    ensures y in CutsY(cells) <==> exists i :: 0 <= i < |cells| && (y == cells[i].y || y == cells[i].y + cells[i].h)
  {
    if cells != [] {
      CutYIs(cells[..|cells| - 1], y);
    }
  }

  /** The mark touches the cell's trim box grown by the bleed. */
  predicate Touches(m: MarkLine, c: Cell, bleed: real) {
    && m.x1 <= c.x + c.w + bleed && c.x - bleed <= m.x2
    && m.y1 <= c.y + c.h + bleed && c.y - bleed <= m.y2
  }

  predicate OnSheet(m: MarkLine, sheet: Size) {
    0.0 <= m.x1 <= m.x2 <= sheet.w && 0.0 <= m.y1 <= m.y2 <= sheet.h
  }

  /** No crop mark ever meets a bleed box, whatever the cells. */
  lemma {:induction false} MarksStayClear(cells: seq<Cell>, bleed: real, m: MarkLine, i: nat)
    requires m in MarksOf(cells, bleed) && i < |cells|
    ensures !Touches(m, cells[i], bleed)
  {
    var e := EdgesOf(cells);
    EdgesBound(cells, i);
    ColumnMarkIs(Distinct(CutsX(cells)), e, bleed + 1.0, m);
    RowMarkIs(Distinct(CutsY(cells)), e, bleed + 1.0, m);
  }

  /** On every side a mark and a millimetre fit between the bleed and the sheet's edge. */
  predicate RoomForMarks(e: Edges, bleed: real, sheet: Size) {
    && e.left - bleed >= CROP_MARK + 1.0 && e.right + bleed <= sheet.w - CROP_MARK - 1.0
    && e.top - bleed >= CROP_MARK + 1.0 && e.bottom + bleed <= sheet.h - CROP_MARK - 1.0
  }

  /** All crop marks lie on the sheet exactly when there is that room. */
  lemma {:induction false} MarksAreOnSheet(cells: seq<Cell>, bleed: real, sheet: Size)
    requires cells != [] && bleed >= 0.0 && forall i :: 0 <= i < |cells| ==> cells[i].w >= 0.0 && cells[i].h >= 0.0
    ensures (forall m :: m in MarksOf(cells, bleed) ==> OnSheet(m, sheet)) <==> RoomForMarks(EdgesOf(cells), bleed, sheet)
  {
    var e := EdgesOf(cells);
    if RoomForMarks(e, bleed, sheet) {
      forall m | m in MarksOf(cells, bleed)
        ensures OnSheet(m, sheet)
      {
        MarkIsOnSheet(cells, bleed, sheet, m);
      }
    }
    if forall m :: m in MarksOf(cells, bleed) ==> OnSheet(m, sheet) {
      MarksNeedHeight(cells, bleed, sheet, e);
      MarksNeedWidth(cells, bleed, sheet, e);
    }
  }

  lemma {:induction false} MarksNeedHeight(cells: seq<Cell>, bleed: real, sheet: Size, e: Edges)
    requires cells != [] && e == EdgesOf(cells)
    requires forall m :: m in MarksOf(cells, bleed) ==> OnSheet(m, sheet)
    ensures e.top - bleed >= CROP_MARK + 1.0 && e.bottom + bleed <= sheet.h - CROP_MARK - 1.0
  {
    var offset, x := bleed + 1.0, cells[0].x;
    var upper := MarkLine(x, e.top - offset - CROP_MARK, x, e.top - offset);
    var lower := MarkLine(x, e.bottom + offset, x, e.bottom + offset + CROP_MARK);
    ColumnMarkIsThere(cells, bleed, 0, e, upper);
    ColumnMarkIsThere(cells, bleed, 0, e, lower);
    assert OnSheet(upper, sheet) && OnSheet(lower, sheet);
  }

  lemma {:induction false} MarksNeedWidth(cells: seq<Cell>, bleed: real, sheet: Size, e: Edges)
    requires cells != [] && e == EdgesOf(cells)
    requires forall m :: m in MarksOf(cells, bleed) ==> OnSheet(m, sheet)
    ensures e.left - bleed >= CROP_MARK + 1.0 && e.right + bleed <= sheet.w - CROP_MARK - 1.0
  {
    var offset, y := bleed + 1.0, cells[0].y;
    var before := MarkLine(e.left - offset - CROP_MARK, y, e.left - offset, y);
    var behind := MarkLine(e.right + offset, y, e.right + offset + CROP_MARK, y);
    RowMarkIsThere(cells, bleed, 0, e, before);
    RowMarkIsThere(cells, bleed, 0, e, behind);
    assert OnSheet(before, sheet) && OnSheet(behind, sheet);
  }

  lemma {:induction false} MarkIsOnSheet(cells: seq<Cell>, bleed: real, sheet: Size, m: MarkLine)
    requires bleed >= 0.0 && cells != [] && RoomForMarks(EdgesOf(cells), bleed, sheet) && m in MarksOf(cells, bleed)
    requires forall i :: 0 <= i < |cells| ==> cells[i].w >= 0.0 && cells[i].h >= 0.0
    ensures OnSheet(m, sheet)
  {
    var e := EdgesOf(cells);
    ColumnMarkIs(Distinct(CutsX(cells)), e, bleed + 1.0, m);
    RowMarkIs(Distinct(CutsY(cells)), e, bleed + 1.0, m);
    DistinctIsExact(CutsX(cells));
    DistinctIsExact(CutsY(cells));
    CutXIs(cells, m.x1);
    CutYIs(cells, m.y1);
    forall i | 0 <= i < |cells|
      ensures e.left <= cells[i].x && cells[i].x + cells[i].w <= e.right && e.top <= cells[i].y && cells[i].y + cells[i].h <= e.bottom
    {
      EdgesBound(cells, i);
    }
  }

  lemma {:induction false} CutsAreThere(cells: seq<Cell>, i: nat)
    requires i < |cells|
    ensures cells[i].x in Distinct(CutsX(cells)) && cells[i].y in Distinct(CutsY(cells))
  {
    DistinctIsExact(CutsX(cells));
    DistinctIsExact(CutsY(cells));
    CutXIs(cells, cells[i].x);
    CutYIs(cells, cells[i].y);
  }

  lemma MarkIsEither(cells: seq<Cell>, bleed: real, m: MarkLine)
    requires cells != []
    ensures m in MarksOf(cells, bleed) <==>
            || m in ColumnMarks(Distinct(CutsX(cells)), EdgesOf(cells), bleed + 1.0)
            || m in RowMarks(Distinct(CutsY(cells)), EdgesOf(cells), bleed + 1.0)
  {
  }

  /** Every cut line carries its marks, one at each end. */
  lemma {:induction false} ColumnMarkIsThere(cells: seq<Cell>, bleed: real, i: nat, e: Edges, m: MarkLine)
    requires i < |cells| && e == EdgesOf(cells)
    requires var offset, x := bleed + 1.0, cells[i].x;
             || m == MarkLine(x, e.top - offset - CROP_MARK, x, e.top - offset)
             || m == MarkLine(x, e.bottom + offset, x, e.bottom + offset + CROP_MARK)
    ensures m in MarksOf(cells, bleed)
  {
    CutsAreThere(cells, i);
    ColumnMarkIs(Distinct(CutsX(cells)), e, bleed + 1.0, m);
    MarkIsEither(cells, bleed, m);
  }

  lemma {:induction false} RowMarkIsThere(cells: seq<Cell>, bleed: real, i: nat, e: Edges, m: MarkLine)
    requires i < |cells| && e == EdgesOf(cells)
    requires var offset, y := bleed + 1.0, cells[i].y;
             || m == MarkLine(e.left - offset - CROP_MARK, y, e.left - offset, y)
             || m == MarkLine(e.right + offset, y, e.right + offset + CROP_MARK, y)
    ensures m in MarksOf(cells, bleed)
  {
    CutsAreThere(cells, i);
    RowMarkIs(Distinct(CutsY(cells)), e, bleed + 1.0, m);
    MarkIsEither(cells, bleed, m);
  }

  /** With a margin of at least a crop mark and a millimetre, an accepted
      layout's marks are all on the sheet. */
  lemma {:induction false} AcceptedMarksAreOnSheet(cell: Size, l: Layout, m: MarkLine)
    requires Printable(cell) && Validate(cell, l).None? && l.Margin() >= CROP_MARK + 1.0
    ensures SheetSize(l.paper, l.orientation).Ok?
    ensures var sheet := SheetSize(l.paper, l.orientation).value;
            m in MarksOf(GridCells(cell, l, sheet, l.rows), l.bleed) ==> OnSheet(m, sheet)
  {
    ValidateIsExact(cell, l);
    var sheet := SheetSize(l.paper, l.orientation).value;
    var cells := GridCells(cell, l, sheet, l.rows);
    if m in MarksOf(cells, l.bleed) {
      GridEdges(cell, l);
      MarkIsOnSheet(cells, l.bleed, sheet, m);
    }
  }

  lemma {:induction false} GridEdges(cell: Size, l: Layout)
    requires Printable(cell) && Validate(cell, l).None? && l.Margin() >= CROP_MARK + 1.0
    ensures SheetSize(l.paper, l.orientation).Ok? && l.cols >= 1 && l.rows >= 1
    ensures var sheet := SheetSize(l.paper, l.orientation).value;
            var cells := GridCells(cell, l, sheet, l.rows);
            && cells != [] && RoomForMarks(EdgesOf(cells), l.bleed, sheet)
            && forall i :: 0 <= i < |cells| ==> cells[i].w >= 0.0 && cells[i].h >= 0.0
  {
    ValidateIsExact(cell, l);
    var sheet := SheetSize(l.paper, l.orientation).value;
    var cells := GridCells(cell, l, sheet, l.rows);
    CellsAreInOrder(cell, l, sheet, l.rows, 0, 0);
    forall i | 0 <= i < |cells|
      ensures cells[i].w == cell.w && cells[i].h == cell.h
      ensures l.Margin() <= cells[i].x - l.bleed && cells[i].x + cell.w + l.bleed <= sheet.w - l.Margin()
      ensures l.Margin() <= cells[i].y - l.bleed && cells[i].y + cell.h + l.bleed <= sheet.h - l.Margin()
    {
      CellsAreOfTheGrid(cell, l, sheet, l.rows, cells[i]);
      var row, col :| 0 <= row < l.rows && 0 <= col < l.cols && cells[i] == CellAt(cell, l, sheet, row, col);
      CellsLieInsideMargins(cell, l, row, col);
    }
    EdgesAreReached(cells);
  }
}

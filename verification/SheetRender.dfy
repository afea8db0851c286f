/** Paging people onto sheets and files, and drawing the layers of one BIB
    (internal/generator/renderer.go, imagerender.go, svgread.go). */
module SheetRender {
  import opened Wrappers
  import opened SheetLayout

  const PEOPLE_PER_FILE := 500

  // ---- parts

  /** One file of a print: people [first, last) of the print order. */
  datatype Part = Part(first: nat, last: nat)

  function PartsFrom(first: nat, n: nat): seq<Part>
    decreases if first < n then n - first else 0
  {
    if first >= n then []
    else [Part(first, if first + PEOPLE_PER_FILE <= n then first + PEOPLE_PER_FILE else n)] + PartsFrom(first + PEOPLE_PER_FILE, n)
  }

  method SplitParts(n: nat) returns (parts: seq<Part>)
    ensures parts == PartsFrom(0, n)
  {
    parts := [];
    var first := 0;
    while first < n
      invariant parts + PartsFrom(first, n) == PartsFrom(0, n)
      decreases n - first
    {
      parts := parts + [Part(first, if first + PEOPLE_PER_FILE <= n then first + PEOPLE_PER_FILE else n)];
      first := first + PEOPLE_PER_FILE;
    }
  }

  /** The parts are consecutive, cover first..n, hold at least one person and
      at most 500, and all but the last hold exactly 500. */
  lemma {:induction false} PartsCover(first: nat, n: nat)
    requires first < n
    ensures var parts := PartsFrom(first, n);
            && parts != [] && parts[0].first == first && parts[|parts| - 1].last == n
            && (forall i :: 0 <= i < |parts| - 1 ==> parts[i].last == parts[i + 1].first == parts[i].first + PEOPLE_PER_FILE)
            && (forall i :: 0 <= i < |parts| ==> parts[i].first < parts[i].last <= n && parts[i].last - parts[i].first <= PEOPLE_PER_FILE)
    decreases n - first
  {
    if first + PEOPLE_PER_FILE < n {
      PartsCover(first + PEOPLE_PER_FILE, n);
    }
  }

  // ---- pages

  /** The people of one part, a sheet's worth at a time. */
  function Pages<P>(people: seq<P>, perSheet: nat): (pages: seq<seq<P>>)
    requires perSheet >= 1
  {
    if people == [] then []
    else if |people| <= perSheet then [people]
    else [people[..perSheet]] + Pages(people[perSheet..], perSheet)
  }

  function Flatten<P>(pages: seq<seq<P>>): seq<P> {
    if pages == [] then [] else pages[0] + Flatten(pages[1..])
  }

  /** Everybody is on exactly one page, in order, and no page is empty or overfull. */
  lemma {:induction false} PagesHoldEverybody<P>(people: seq<P>, perSheet: nat)
    requires perSheet >= 1
    ensures Flatten(Pages(people, perSheet)) == people
    ensures forall i :: 0 <= i < |Pages(people, perSheet)| ==> 1 <= |Pages(people, perSheet)[i]| <= perSheet
    ensures forall i :: 0 <= i < |Pages(people, perSheet)| - 1 ==> |Pages(people, perSheet)[i]| == perSheet
  {
    if |people| > perSheet {
      PagesHoldEverybody(people[perSheet..], perSheet);
      assert people == people[..perSheet] + people[perSheet..];
    }
  }

  function CeilDiv(a: nat, b: nat): nat
    requires b >= 1
  {
    (a + b - 1) / b
  }

  lemma {:induction false} AtLeastOneTimes(k: int, b: nat)
    requires k >= 1
    ensures k * b >= b
  {
    assert k * b == (k - 1) * b + b;
  }

  lemma {:induction false} QuotientIsUnique(b: nat, q1: int, r1: int, q2: int, r2: int)
    requires q1 * b + r1 == q2 * b + r2 && 0 <= r1 < b && 0 <= r2 < b
    ensures q1 == q2
  {
    assert (q1 - q2) * b == q1 * b - q2 * b;
    assert (q2 - q1) * b == q2 * b - q1 * b;
    if q1 > q2 {
      AtLeastOneTimes(q1 - q2, b);
    } else if q1 < q2 {
      AtLeastOneTimes(q2 - q1, b);
    }
  }

  lemma {:induction false} CeilDivStep(a: nat, b: nat)
    requires b >= 1 && a > b
    ensures CeilDiv(a, b) == 1 + CeilDiv(a - b, b)
  {
    var n := a + b - 1;
    var q := (n - b) / b;
    assert n == (q + 1) * b + (n - b) % b;
    assert n == (n / b) * b + n % b;
    QuotientIsUnique(b, n / b, n % b, q + 1, (n - b) % b);
  }

  lemma {:induction false} PageCount<P>(people: seq<P>, perSheet: nat)
    requires perSheet >= 1
    ensures |Pages(people, perSheet)| == CeilDiv(|people|, perSheet)
  {
    if |people| > perSheet {
      PageCount(people[perSheet..], perSheet);
      CeilDivStep(|people|, perSheet);
    } else if people != [] {
      assert CeilDiv(|people|, perSheet) == 1;
    } else {
      assert CeilDiv(0, perSheet) == 0;
    }
  }

  // ---- the layers of one BIB

  datatype Item = Static(hasTags: bool) | QR(bibTag: bool) | Text

  /** What drawing one item puts on the sheet. */
  datatype Stroke = Layer(run: nat) | Draws(item: nat)

  predicate StartsRun(items: seq<Item>, i: int) {
    0 <= i < |items| && items[i].Static? && (i == 0 || !items[i - 1].Static?)
  }

  /** How many maximal runs of static items there are. */
  function Runs(items: seq<Item>): nat {
    if items == [] then 0
    else Runs(items[..|items| - 1]) + if StartsRun(items, |items| - 1) then 1 else 0
  }

  method StaticRuns(items: seq<Item>) returns (runs: nat)
    ensures runs == Runs(items)
  {
    runs := 0;
    var inRun := false;
    for i := 0 to |items|
      invariant runs == Runs(items[..i])
      invariant inRun <==> i > 0 && items[i - 1].Static?
    {
      assert items[..i + 1][..i] == items[..i];
      if items[i].Static? {
        if !inRun {
          runs := runs + 1;
        }
        inRun := true;
      } else {
        inRun := false;
      }
    }
    assert items[..|items|] == items;
  }

  predicate HasEmbeddedTags(items: seq<Item>) {
    exists i :: 0 <= i < |items| && items[i].Static? && items[i].hasTags
  }

  /** One layer where a run of static items starts, then each other item. */
  function Strokes(items: seq<Item>): seq<Stroke> {
    if items == [] then []
    else
      var n := |items| - 1;
      Strokes(items[..n])
      + if StartsRun(items, n) then [Layer(Runs(items[..n]))]
        else if items[n].Static? then []
        else [Draws(n)]
  }

  /** Draws one BIB; a layer for every run is at hand. */
  method DrawItems(items: seq<Item>, layers: nat) returns (strokes: seq<Stroke>)
    requires layers == Runs(items)
    ensures strokes == Strokes(items)
  {
    var run, inRun := -1, false;
    strokes := [];
    for i := 0 to |items|
      invariant run + 1 == Runs(items[..i])
      invariant inRun <==> i > 0 && items[i - 1].Static?
      invariant strokes == Strokes(items[..i])
    {
      assert items[..i + 1][..i] == items[..i];
      match items[i] {
        case Static(_) =>
          if !inRun {
            run := run + 1;
            inRun := true;
            RunsGrow(items, i + 1);
            assert 0 <= run < layers;   // the raster index is in range
            strokes := strokes + [Layer(run)];
          }
        case _ =>
          inRun := false;
          strokes := strokes + [Draws(i)];
      }
    }
    assert items[..|items|] == items;
  }

  lemma {:induction false} RunsGrow(items: seq<Item>, i: nat)
    requires i <= |items|
    ensures Runs(items[..i]) <= Runs(items)
  {
    if i < |items| {
      RunsGrow(items[..|items| - 1], i);
      assert items[..|items| - 1][..i] == items[..i];
    } else {
      assert items[..i] == items;
    }
  }

  /** The layers drawn, in drawing order. */
  function LayersOf(strokes: seq<Stroke>): seq<nat> {
    if strokes == [] then []
    else LayersOf(strokes[..|strokes| - 1])
         + match strokes[|strokes| - 1] { case Layer(k) => [k] case Draws(_) => [] }
  }

  /** Every layer is drawn once, in order. */
  lemma {:induction false} LayersAreDrawnOnce(items: seq<Item>)
    ensures LayersOf(Strokes(items)) == seq(Runs(items), k => k)
  {
    if items != [] {
      var front := items[..|items| - 1];
      LayersAreDrawnOnce(front);
      var strokes := Strokes(items);
      if strokes != Strokes(front) {
        assert strokes[..|strokes| - 1] == Strokes(front);
      }
    }
  }

  /** Every item that is not static is drawn once, in its turn, and above exactly the
      layers that start before it. */
  lemma {:induction false} StrokesKeepStacking(items: seq<Item>, i: nat)
    requires i < |items| && !items[i].Static?
    ensures Strokes(items[..i]) + [Draws(i)] <= Strokes(items)
    ensures LayersOf(Strokes(items[..i])) == seq(Runs(items[..i]), k => k)
  {
    LayersAreDrawnOnce(items[..i]);
    if i < |items| - 1 {
      var front := items[..|items| - 1];
      StrokesKeepStacking(front, i);
      assert front[..i] == items[..i];
    }
  }

  // ---- a whole print

  /** What a print is made with: the cells of a sheet, its crop marks, and the
      artwork of one BIB. */
  datatype Press = Press(cells: seq<Cell>, marks: seq<MarkLine>, items: seq<Item>)

  /** One BIB on a sheet: whose it is, where it is, and what drawing it put there. */
  datatype Drawn<P> = Drawn(person: P, cell: Cell, strokes: seq<Stroke>)

  datatype Sheet<P> = Sheet(drawings: seq<Drawn<P>>, marks: seq<MarkLine>)

  /** One printed file: the part it holds and its sheets. */
  datatype File<P> = File(number: nat, part: Part, sheets: seq<Sheet<P>>)

  datatype Print<P> = Print(sheets: nat, files: seq<File<P>>)

  datatype RenderError = NobodyToPrint | BadLayout(error: LayoutError) | EmbeddedTags | MissingRaster | BadQR | Cancelled

  /** The i-th person of a page is drawn in the i-th cell. */
  function SheetOf<P>(page: seq<P>, press: Press): (sheet: Sheet<P>)
    requires |page| <= |press.cells|
    ensures |sheet.drawings| == |page|
  {
    Sheet(seq(|page|, i requires 0 <= i < |page| => Drawn(page[i], press.cells[i], Strokes(press.items))), press.marks)
  }

  function SheetsOf<P>(pages: seq<seq<P>>, press: Press): (sheets: seq<Sheet<P>>)
    requires forall i :: 0 <= i < |pages| ==> |pages[i]| <= |press.cells|
    ensures |sheets| == |pages|
  {
    seq(|pages|, i requires 0 <= i < |pages| => SheetOf(pages[i], press))
  }

  /** The sheets of one part. */
  function PartSheets<P>(people: seq<P>, press: Press): (sheets: seq<Sheet<P>>)
    requires press.cells != []
  {
    PagesHoldEverybody(people, |press.cells|);
    SheetsOf(Pages(people, |press.cells|), press)
  }

  function FilesOf<P>(people: seq<P>, parts: seq<Part>, press: Press): seq<File<P>>
    requires press.cells != [] && forall i :: 0 <= i < |parts| ==> parts[i].first <= parts[i].last <= |people|
  {
    seq(|parts|, i requires 0 <= i < |parts| => File(i + 1, parts[i], PartSheets(people[parts[i].first..parts[i].last], press)))
  }

  function SheetCount<P>(files: seq<File<P>>): nat {
    if files == [] then 0 else SheetCount(files[..|files| - 1]) + |files[|files| - 1].sheets|
  }

  /** Prints one part, a page to a sheet; the check for a cancelled request stands
      before every sheet. */
  method RenderPart<P>(people: seq<P>, press: Press, layers: nat, sheetsLeft: Option<nat>)
    returns (sheets: seq<Sheet<P>>, done: nat, cancelled: bool)
    requires press.cells != [] && layers == Runs(press.items)
    ensures !cancelled ==> sheets == PartSheets(people, press) && done == |people|
    ensures cancelled <==> sheetsLeft.Some? && sheetsLeft.value < |PartSheets(people, press)|
  {
    var perSheet := |press.cells|;
    sheets, done, cancelled := [], 0, false;
    var start := 0;
    while start < |people|
      invariant 0 <= start
      invariant done == if start <= |people| then start else |people|
      invariant sheets + PartSheets(people[done..], press) == PartSheets(people, press)
      invariant sheetsLeft.Some? ==> |sheets| <= sheetsLeft.value
      decreases |people| - start
    {
      SheetTaken(people, start, press, sheets);
      if sheetsLeft.Some? && |sheets| == sheetsLeft.value {
        return sheets, done, true;
      }
      var end := if start + perSheet <= |people| then start + perSheet else |people|;
      var sheet;
      sheet, done := RenderSheet(people[start..end], press, layers, done);
      sheets := sheets + [sheet];
      start := start + perSheet;
    }
  }

  /** Draws everybody of one page and the crop marks. */
  method RenderSheet<P>(page: seq<P>, press: Press, layers: nat, doneBefore: nat) returns (sheet: Sheet<P>, done: nat)
    requires |page| <= |press.cells| && layers == Runs(press.items)
    ensures sheet == SheetOf(page, press) && done == doneBefore + |page|
  {
    var drawings: seq<Drawn<P>> := [];
    done := doneBefore;
    for i := 0 to |page|
      invariant drawings == SheetOf(page, press).drawings[..i] && done == doneBefore + i
    {
      var strokes := DrawItems(press.items, layers);
      drawings := drawings + [Drawn(page[i], press.cells[i], strokes)];
      done := done + 1;
    }
    sheet := Sheet(drawings, press.marks);
  }

  lemma {:induction false} PageTaken<P>(people: seq<P>, start: nat, perSheet: nat)
    requires perSheet >= 1 && start < |people|
    ensures var end := if start + perSheet <= |people| then start + perSheet else |people|;
            Pages(people[start..], perSheet) == [people[start..end]] + Pages(people[end..], perSheet)
  {
    var rest := people[start..];
    if |rest| > perSheet {
      assert rest[..perSheet] == people[start..start + perSheet];
      assert rest[perSheet..] == people[start + perSheet..];
    } else {
      assert people[start..|people|] == rest;
      assert Pages(people[|people|..], perSheet) == [];
    }
  }

  /** The next page goes onto the next sheet. */
  lemma {:induction false} SheetTaken<P>(people: seq<P>, start: nat, press: Press, sheets: seq<Sheet<P>>)
    requires press.cells != [] && start < |people| && sheets + PartSheets(people[start..], press) == PartSheets(people, press)
    ensures |sheets| < |PartSheets(people, press)|
    ensures var end := if start + |press.cells| <= |people| then start + |press.cells| else |people|;
            (sheets + [SheetOf(people[start..end], press)]) + PartSheets(people[end..], press) == PartSheets(people, press)
  {
    var end := if start + |press.cells| <= |people| then start + |press.cells| else |people|;
    PageTaken(people, start, |press.cells|);
    PagesHoldEverybody(people[end..], |press.cells|);
    assert PartSheets(people[start..], press) == [SheetOf(people[start..end], press)] + PartSheets(people[end..], press);
  }

  // ---- who is in a print

  function PeopleOn<P>(sheet: Sheet<P>): seq<P> {
    seq(|sheet.drawings|, i requires 0 <= i < |sheet.drawings| => sheet.drawings[i].person)
  }

  function PeopleIn<P>(sheets: seq<Sheet<P>>): seq<P> {
    if sheets == [] then [] else PeopleOn(sheets[0]) + PeopleIn(sheets[1..])
  }

  /** The people of all the files, in the order of print. */
  function Printed<P>(files: seq<File<P>>): seq<P> {
    if files == [] then [] else Printed(files[..|files| - 1]) + PeopleIn(files[|files| - 1].sheets)
  }

  lemma {:induction false} SheetsHoldTheirPages<P>(pages: seq<seq<P>>, press: Press)
    requires forall i :: 0 <= i < |pages| ==> |pages[i]| <= |press.cells|
    ensures PeopleIn(SheetsOf(pages, press)) == Flatten(pages)
  {
    if pages != [] {
      SheetsHoldTheirPages(pages[1..], press);
      assert SheetsOf(pages, press)[1..] == SheetsOf(pages[1..], press);
      assert PeopleOn(SheetOf(pages[0], press)) == pages[0];
    }
  }

  lemma {:induction false} PartHoldsItsPeople<P>(people: seq<P>, press: Press)
    requires press.cells != []
    ensures PeopleIn(PartSheets(people, press)) == people
  {
    PagesHoldEverybody(people, |press.cells|);
    SheetsHoldTheirPages(Pages(people, |press.cells|), press);
  }

  /** The parts are consecutive from 0 and stay within n. */
  ghost predicate Consecutive(parts: seq<Part>, n: nat) {
    && (forall i :: 0 <= i < |parts| ==> parts[i].first <= parts[i].last <= n)
    && (parts != [] ==> parts[0].first == 0)
    && (forall i :: 0 <= i < |parts| - 1 ==> parts[i].last == parts[i + 1].first)
  }

  lemma FrontIsConsecutive(parts: seq<Part>, n: nat)
    requires parts != [] && Consecutive(parts, n)
    ensures var front, p := parts[..|parts| - 1], parts[|parts| - 1];
            && Consecutive(front, n)
            && p.first == (if front == [] then 0 else front[|front| - 1].last)
            && p.first <= p.last <= n
  {
  }

  lemma OneMoreStretch<P>(people: seq<P>, a: nat, b: nat)
    requires a <= b <= |people|
    ensures people[..b] == people[..a] + people[a..b]
  {
  }

  lemma FilesOfFront<P>(people: seq<P>, parts: seq<Part>, press: Press)
    requires press.cells != [] && parts != [] && forall i :: 0 <= i < |parts| ==> parts[i].first <= parts[i].last <= |people|
    ensures FilesOf(people, parts, press)[..|parts| - 1] == FilesOf(people, parts[..|parts| - 1], press)
  {
  }

  lemma {:induction false} FilesHoldEverybody<P>(people: seq<P>, parts: seq<Part>, press: Press)
    requires press.cells != [] && Consecutive(parts, |people|)
    ensures Printed(FilesOf(people, parts, press)) == people[..if parts == [] then 0 else parts[|parts| - 1].last]
  {
    if parts != [] {
      var p := parts[|parts| - 1];
      FrontIsConsecutive(parts, |people|);
      FilesHoldEverybody(people, parts[..|parts| - 1], press);
      FilesOfFront(people, parts, press);
      PartHoldsItsPeople(people[p.first..p.last], press);
      OneMoreStretch(people, p.first, p.last);
    }
  }

  lemma {:induction false} PartsAreWithin(n: nat)
    ensures forall i :: 0 <= i < |PartsFrom(0, n)| ==> PartsFrom(0, n)[i].first <= PartsFrom(0, n)[i].last <= n
  {
    if n > 0 {
      PartsCover(0, n);
    }
  }

  function WholePrint<P>(people: seq<P>, press: Press): Print<P>
    requires press.cells != []
  {
    PartsAreWithin(|people|);
    var files := FilesOf(people, PartsFrom(0, |people|), press);
    Print(SheetCount(files), files)
  }

  /** The whole print: everybody drawn once and in order, over files of at most 500. */
  lemma {:induction false} PrintHoldsEverybody<P>(people: seq<P>, press: Press)
    requires press.cells != [] && people != []
    ensures Printed(WholePrint(people, press).files) == people
    ensures forall i :: 0 <= i < |WholePrint(people, press).files| ==>
              |PeopleIn(WholePrint(people, press).files[i].sheets)| <= PEOPLE_PER_FILE
  {
    var parts := PartsFrom(0, |people|);
    PartsAreWithin(|people|);
    PartsCover(0, |people|);
    var files := FilesOf(people, parts, press);
    FilesHoldEverybody(people, parts, press);
    assert people[..|people|] == people;
    forall i | 0 <= i < |files|
      ensures |PeopleIn(files[i].sheets)| <= PEOPLE_PER_FILE
    {
      PartHoldsItsPeople(people[parts[i].first..parts[i].last], press);
    }
  }

  lemma {:induction false} PartsAreWhole(first: nat, n: nat)
    requires first < n
    ensures forall k :: 0 <= k < |PartsFrom(first, n)| ==> PartsFrom(first, n)[k].first == first + PEOPLE_PER_FILE * k
    ensures forall k :: 0 <= k < |PartsFrom(first, n)| ==>
              PartsFrom(first, n)[k].last == if first + 500 * (k + 1) <= n then first + 500 * (k + 1) else n
    decreases n - first
  {
    if first + PEOPLE_PER_FILE < n {
      PartsAreWhole(first + PEOPLE_PER_FILE, n);
    }
  }

  /** The files are numbered from one, and the k-th holds the k-th five hundred people. */
  lemma {:induction false} FilesAreNumbered<P>(people: seq<P>, press: Press, k: nat)
    requires press.cells != [] && k < |WholePrint(people, press).files|
    ensures var file := WholePrint(people, press).files[k];
            && file.number == k + 1
            && 0 <= 500 * k < |people|
            && file.part == Part(500 * k, if 500 * (k + 1) <= |people| then 500 * (k + 1) else |people|)
            && PeopleIn(file.sheets) == people[500 * k..if 500 * (k + 1) <= |people| then 500 * (k + 1) else |people|]
  {
    PartsAreWithin(|people|);
    PartsAreWhole(0, |people|);
    PartsCover(0, |people|);
    var part := PartsFrom(0, |people|)[k];
    PartHoldsItsPeople(people[part.first..part.last], press);
  }

  // ---- where they are

  /** The drawings are in the first cells of the sheet, one in each, each with all the
      strokes of the artwork, and all the marks are there. */
  ghost predicate MadeWith<P>(sheet: Sheet<P>, press: Press) {
    && 1 <= |sheet.drawings| <= |press.cells|
    && (forall i :: 0 <= i < |sheet.drawings| ==>
          sheet.drawings[i].cell == press.cells[i] && sheet.drawings[i].strokes == Strokes(press.items))
    && sheet.marks == press.marks
  }

  lemma {:induction false} SheetsAreMadeWith<P>(people: seq<P>, press: Press, n: nat, k: nat)
    requires press.cells != [] && n < |WholePrint(people, press).files| && k < |WholePrint(people, press).files[n].sheets|
    ensures MadeWith(WholePrint(people, press).files[n].sheets[k], press)
  {
    PartsAreWithin(|people|);
    var part := PartsFrom(0, |people|)[n];
    PagesHoldEverybody(people[part.first..part.last], |press.cells|);
  }

  /** What an accepted layout prints with. */
  function PressOf(cell: Size, layout: Layout, items: seq<Item>): (press: Press)
    requires Printable(cell) && Validate(cell, layout).None?
    ensures press.cells != []
  {
    ValidateIsExact(cell, layout);
    var cells := GridCells(cell, layout, SheetSize(layout.paper, layout.orientation).value, layout.rows);
    CellsAreInOrder(cell, layout, SheetSize(layout.paper, layout.orientation).value, layout.rows, 0, 0);
    Press(cells, if layout.cropMarks then MarksOf(cells, layout.bleed) else [], items)
  }

  /** The i-th cell is the one of some row and column, and no other is. */
  lemma {:induction false} CellHasItsPlace(cell: Size, layout: Layout, items: seq<Item>, i: nat) returns (row: nat, col: nat)
    requires Printable(cell) && Validate(cell, layout).None? && i < |PressOf(cell, layout, items).cells|
    ensures row < layout.rows && col < layout.cols && i == row * layout.cols + col
    ensures PressOf(cell, layout, items).cells[i] ==
            CellAt(cell, layout, SheetSize(layout.paper, layout.orientation).value, row, col)
  {
    ValidateIsExact(cell, layout);
    var sheet := SheetSize(layout.paper, layout.orientation).value;
    GridHasAllCells(cell, layout, sheet, layout.rows);
    row, col := i / layout.cols, i % layout.cols;
    QuotientBelow(i, layout.rows, layout.cols);
    CellsAreInOrder(cell, layout, sheet, layout.rows, row, col);
  }

  lemma {:induction false} QuotientBelow(i: nat, rows: nat, cols: nat)
    requires cols >= 1 && i < rows * cols
    ensures i / cols < rows && i == i / cols * cols + i % cols
  {
    assert i == i / cols * cols + i % cols;
  }

  /** On every sheet of a print with an accepted layout, every BIB lies inside the
      margins with its bleed, no crop mark meets it, and any two are at least two
      bleeds and a gutter apart on some axis. */
  lemma {:induction false} PrintKeepsApart<P>(cell: Size, layout: Layout, items: seq<Item>, s: Sheet<P>, i: nat, j: nat)
    requires Printable(cell) && Validate(cell, layout).None? && MadeWith(s, PressOf(cell, layout, items))
    requires i < j < |s.drawings|
    ensures var a, b := s.drawings[i].cell, s.drawings[j].cell;
            || Apart(a.x, b.x, cell.w, 2.0 * layout.bleed + layout.gutter)
            || Apart(a.y, b.y, cell.h, 2.0 * layout.bleed + layout.gutter)
  {
    ValidateIsExact(cell, layout);
    var r1, c1 := CellHasItsPlace(cell, layout, items, i);
    var r2, c2 := CellHasItsPlace(cell, layout, items, j);
    CellsKeepApart(cell, layout, SheetSize(layout.paper, layout.orientation).value, r1, c1, r2, c2);
  }

  lemma {:induction false} PrintLiesInsideMargins<P>(cell: Size, layout: Layout, items: seq<Item>, s: Sheet<P>, i: nat)
    requires Printable(cell) && Validate(cell, layout).None? && MadeWith(s, PressOf(cell, layout, items))
    requires i < |s.drawings|
    ensures SheetSize(layout.paper, layout.orientation).Ok?
    ensures var c, sheet := s.drawings[i].cell, SheetSize(layout.paper, layout.orientation).value;
            && layout.Margin() <= c.x - layout.bleed && c.x + c.w + layout.bleed <= sheet.w - layout.Margin()
            && layout.Margin() <= c.y - layout.bleed && c.y + c.h + layout.bleed <= sheet.h - layout.Margin()
    ensures forall m :: m in s.marks ==> !Touches(m, s.drawings[i].cell, layout.bleed)
  {
    var row, col := CellHasItsPlace(cell, layout, items, i);
    CellsLieInsideMargins(cell, layout, row, col);
    forall m | m in s.marks
      ensures !Touches(m, s.drawings[i].cell, layout.bleed)
    {
      MarksStayClear(PressOf(cell, layout, items).cells, layout.bleed, m, i);
    }
  }

  // ---- how many sheets

  /** The sum of the parts' ceilings. */
  function SumOfCeilings(parts: seq<Part>, perSheet: nat): nat
    requires perSheet >= 1 && forall i :: 0 <= i < |parts| ==> parts[i].first <= parts[i].last
  {
    if parts == [] then 0
    else
      var p := parts[|parts| - 1];
      SumOfCeilings(parts[..|parts| - 1], perSheet) + CeilDiv(p.last - p.first, perSheet)
  }

  lemma {:induction false} SheetsAreCeilings<P>(people: seq<P>, parts: seq<Part>, press: Press)
    requires press.cells != [] && forall i :: 0 <= i < |parts| ==> parts[i].first <= parts[i].last <= |people|
    ensures SheetCount(FilesOf(people, parts, press)) == SumOfCeilings(parts, |press.cells|)
  {
    if parts != [] {
      var front, p := parts[..|parts| - 1], parts[|parts| - 1];
      SheetsAreCeilings(people, front, press);
      PageCount(people[p.first..p.last], |press.cells|);
      FilesOfFront(people, parts, press);
    }
  }

  // ---- the whole request

  /** Makes the print files, or says why not. The request may be cancelled
      before some sheet; then nothing is returned. */
  method Render<P>(people: seq<P>, cell: Size, layout: Layout, items: seq<Item>, rasters: nat, sheetsLeft: Option<nat>)
    returns (r: Result<Print<P>, RenderError>)
    requires Printable(cell)
    ensures people == [] ==> r == Err(NobodyToPrint)
    ensures people != [] && Validate(cell, layout).Some? ==> r == Err(BadLayout(Validate(cell, layout).value))
    ensures people != [] && Validate(cell, layout).None? ==>
              r == if HasEmbeddedTags(items) then Err(EmbeddedTags)
                   else if rasters != Runs(items) then Err(MissingRaster)
                   else if exists i :: 0 <= i < |items| && items[i].QR? && !items[i].bibTag then Err(BadQR)
                   else if sheetsLeft.Some? && sheetsLeft.value < WholePrint(people, PressOf(cell, layout, items)).sheets then Err(Cancelled)
                   else Ok(WholePrint(people, PressOf(cell, layout, items)))
  {
    if people == [] {
      return Err(NobodyToPrint);
    }
    var broken := Validate(cell, layout);
    if broken.Some? {
      return Err(BadLayout(broken.value));
    }
    ValidateIsExact(cell, layout);
    if HasEmbeddedTags(items) {
      return Err(EmbeddedTags);
    }
    var runs := StaticRuns(items);
    if rasters != runs {
      return Err(MissingRaster);
    }
    if exists i :: 0 <= i < |items| && items[i].QR? && !items[i].bibTag {
      return Err(BadQR);
    }
    var placed := PlaceCells(cell, layout);
    var marks: seq<MarkLine> := [];
    if layout.cropMarks {
      marks := CropMarkLines(placed.value, layout.bleed);
    }
    var press := Press(placed.value, marks, items);
    assert press == PressOf(cell, layout, items);
    r := RenderParts(people, press, rasters, sheetsLeft);
  }

  method RenderParts<P>(people: seq<P>, press: Press, layers: nat, sheetsLeft: Option<nat>)
    returns (r: Result<Print<P>, RenderError>)
    requires press.cells != [] && layers == Runs(press.items)
    ensures r == if sheetsLeft.Some? && sheetsLeft.value < WholePrint(people, press).sheets then Err(Cancelled)
                 else Ok(WholePrint(people, press))
  {
    var parts := SplitParts(|people|);
    PartsAreWithin(|people|);
    ghost var whole := FilesOf(people, parts, press);
    var sheets, files := 0, [];
    for n := 0 to |parts|
      invariant files == whole[..n] && sheets == SheetCount(files)
      invariant sheetsLeft.Some? ==> sheets <= sheetsLeft.value
    {
      var left := if sheetsLeft.Some? then Some(sheetsLeft.value - sheets) else None;
      var printed, done, cancelled := RenderPart(people[parts[n].first..parts[n].last], press, layers, left);
      NextFile(whole, n);
      if cancelled {
        return Err(Cancelled);
      }
      sheets := sheets + |printed|;
      files := files + [File(n + 1, parts[n], printed)];
    }
    assert whole[..|parts|] == whole;
    r := Ok(Print(sheets, files));
  }

  lemma {:induction false} NextFile<P>(files: seq<File<P>>, n: nat)
    requires n < |files|
    ensures files[..n + 1] == files[..n] + [files[n]]
    ensures SheetCount(files[..n + 1]) == SheetCount(files[..n]) + |files[n].sheets| <= SheetCount(files)
  {
    assert files[..n + 1][..n] == files[..n];
    CountGrows(files, n + 1);
  }

  lemma {:induction false} CountGrows<P>(files: seq<File<P>>, k: nat)
    requires k <= |files|
    ensures SheetCount(files[..k]) <= SheetCount(files)
  {
    if k < |files| {
      CountGrows(files[..|files| - 1], k);
      assert files[..|files| - 1][..k] == files[..k];
    } else {
      assert files[..k] == files;
    }
  }
}
